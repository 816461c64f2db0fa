/** The one-shot table copy between two databases: tables are truncated with CASCADE and filled
    page by page, in a fixed order, under the target's foreign keys. */
module TableCopy {
  import opened Common
  import opened TablePages

  /** The tables the script names, and whatever else the target database holds. */
  datatype Table =
    | Clients | Locations | Packages | ParentSkus | Products | ProductDefaults | Settings
    | RateCache | MockLabels | SyncMeta | CarrierAccounts | ReturnLabels | BillingRecords
    | Orders | OrderOverrides | Shipments
    | Inventory | InventorySkuParents | InventoryLedger | PackageLedger | PrintQueueOrders
    | Unlisted(name: string)

  type Db = map<Table, seq<Row>>

  /** child.column references parent.key */
  datatype Fk = Fk(child: Table, column: Column, parent: Table, key: Column)

  // -- TRUNCATE ... CASCADE ------------------------------------------------------------

  function Children(fks: set<Fk>, s: set<Table>): set<Table> {
    set fk | fk in fks && fk.parent in s :: fk.child
  }

  /** s and all tables that reference it, directly or through others. */
  function Closure(fks: set<Fk>, s: set<Table>): (c: set<Table>)
    ensures s <= c && Children(fks, c) <= c
    decreases (set fk | fk in fks :: fk.child) - s
  {
    var more := Children(fks, s);
    if more <= s then s
    else
      assert exists t :: t in more && t !in s && t in (set fk | fk in fks :: fk.child) - s;
      Closure(fks, s + more)
  }

  lemma {:induction false} ClosureIsLeast(fks: set<Fk>, s: set<Table>, closed: set<Table>)
    requires s <= closed && Children(fks, closed) <= closed
    ensures Closure(fks, s) <= closed
    decreases (set fk | fk in fks :: fk.child) - s
  {
    var more := Children(fks, s);
    if !(more <= s) {
      assert exists t :: t in more && t !in s && t in (set fk | fk in fks :: fk.child) - s;
      assert more <= Children(fks, closed);
      ClosureIsLeast(fks, s + more, closed);
    }
  }

  function Cascade(fks: set<Fk>, t: Table): set<Table> {
    Closure(fks, {t})
  }

  function Truncate(db: Db, fks: set<Fk>, t: Table): Db {
    map u | u in db :: if u in Cascade(fks, t) then [] else db[u]
  }

  // -- Foreign keys and INSERT -----------------------------------------------------------

  predicate Refers(row: Row, fk: Fk) {
    fk.column in row && row[fk.column] != Null
  }

  predicate Resolves(db: Db, row: Row, fk: Fk)
    requires Refers(row, fk)
  {
    fk.parent in db && exists p :: p in db[fk.parent] && fk.key in p && p[fk.key] == row[fk.column]
  }

  predicate RowOk(db: Db, fks: set<Fk>, t: Table, row: Row) {
    forall fk :: fk in fks && fk.child == t && Refers(row, fk) ==> Resolves(db, row, fk)
  }

  /** Every reference of every stored row resolves. */
  predicate Integrity(db: Db, fks: set<Fk>) {
    forall t, row :: t in db && row in db[t] ==> RowOk(db, fks, t, row)
  }

  predicate BatchOk(db: Db, fks: set<Fk>, t: Table, batch: seq<Row>) {
    forall row :: row in batch ==> RowOk(db, fks, t, row)
  }

  /** Same tables, and the same rows in every table but t. */
  predicate OnlyChanges(before: Db, after: Db, t: Table) {
    && after.Keys == before.Keys
    && forall u :: u in before && u != t ==> after[u] == before[u]
  }

  /** A multi-row INSERT: all rows or, on a foreign-key violation, none. */
  function Insert(db: Db, fks: set<Fk>, t: Table, batch: seq<Row>): (r: (Db, bool))
    requires t in db
    ensures OnlyChanges(db, r.0, t)
  {
    var after := db[t := db[t] + batch];
    if BatchOk(after, fks, t, batch) then (after, true) else (db, false)
  }

  /** What keeps an INSERT out: a row with a value in a referencing column that is the key of no row of
      the parent table, the new rows counted when the table refers to itself. */
  ghost predicate Dangling(db: Db, fks: set<Fk>, t: Table, batch: seq<Row>, row: Row, fk: Fk) {
    && row in batch && fk in fks && fk.child == t && fk.column in row && row[fk.column] != Null
    && forall p ::
         (fk.parent in db && p in db[fk.parent]) || (fk.parent == t && p in batch)
         ==> fk.key !in p || p[fk.key] != row[fk.column]
  }

  /** An INSERT stores all of its rows, behind those that are there, or is refused and stores none; it is
      refused exactly for a dangling row. */
  lemma {:induction false} InsertIff(db: Db, fks: set<Fk>, t: Table, batch: seq<Row>)
    requires t in db
    ensures Insert(db, fks, t, batch).1 <==> !exists row, fk :: Dangling(db, fks, t, batch, row, fk)
    ensures Insert(db, fks, t, batch).0 == if Insert(db, fks, t, batch).1 then db[t := db[t] + batch] else db
  {
    var after := db[t := db[t] + batch];
    if BatchOk(after, fks, t, batch) {
      forall row, fk ensures !Dangling(db, fks, t, batch, row, fk) {
        if row in batch && fk in fks && fk.child == t && Refers(row, fk) {
          assert RowOk(after, fks, t, row) && Resolves(after, row, fk);
          var p :| p in after[fk.parent] && fk.key in p && p[fk.key] == row[fk.column];
          assert (fk.parent in db && p in db[fk.parent]) || (fk.parent == t && p in batch);
        }
      }
    } else {
      var row :| row in batch && !RowOk(after, fks, t, row);
      var fk :| fk in fks && fk.child == t && Refers(row, fk) && !Resolves(after, row, fk);
      assert Dangling(db, fks, t, batch, row, fk);
    }
  }

  /** The page loop: stops at the first failing statement, keeping what was inserted. */
  function InsertPages(db: Db, fks: set<Fk>, t: Table, rows: seq<Row>): (r: (Db, bool))
    requires t in db
    ensures OnlyChanges(db, r.0, t)
    decreases |rows|
  {
    if rows == [] then (db, true)
    else
      var page := if |rows| < BATCH_SIZE then |rows| else BATCH_SIZE;
      var (after, ok) := Insert(db, fks, t, rows[..page]);
      if ok then InsertPages(after, fks, t, rows[page..]) else (after, false)
  }

  /** The target with these rows behind those of t. */
  function Grown(db: Db, t: Table, rows: seq<Row>): Db
    requires t in db
  {
    db[t := db[t] + rows]
  }

  /** The page of the rows that begins at n. */
  function PageAt(rows: seq<Row>, n: nat): seq<Row>
    requires n <= |rows|
  {
    rows[n..if n + 1000 < |rows| then n + 1000 else |rows|]
  }

  lemma {:induction false} GrownByNothing(db: Db, t: Table, rows: seq<Row>)
    requires t in db
    ensures Grown(db, t, rows[..0]) == db
  {
    assert db[t] + rows[..0] == db[t];
  }

  lemma {:induction false} GrownTwice(db: Db, t: Table, rows: seq<Row>, page: nat, k: nat)
    requires t in db && page + k <= |rows|
    ensures Grown(Grown(db, t, rows[..page]), t, rows[page..][..k]) == Grown(db, t, rows[..page + k])
  {
    assert rows[..page] + rows[page..][..k] == rows[..page + k];
    assert db[t] + rows[..page] + rows[page..][..k] == db[t] + (rows[..page] + rows[page..][..k]);
  }

  lemma {:induction false} PageBehind(rows: seq<Row>, page: nat, k: nat)
    requires page + k <= |rows|
    ensures PageAt(rows[page..], k) == PageAt(rows, page + k)
  {}

  lemma {:induction false} FirstPageStored(db: Db, fks: set<Fk>, t: Table, rows: seq<Row>)
    requires t in db && rows != []
    ensures InsertPages(db, fks, t, rows) ==
              if Insert(db, fks, t, PageAt(rows, 0)).1
              then InsertPages(Grown(db, t, PageAt(rows, 0)), fks, t, rows[|PageAt(rows, 0)|..])
              else (db, false)
  {
    assert PageAt(rows, 0) == rows[..|PageAt(rows, 0)|];
  }

  /** The first n of the rows are stored, and either they are all or a whole number of pages with the
      next one refused. */
  ghost predicate StoredUpTo(db: Db, fks: set<Fk>, t: Table, rows: seq<Row>, n: nat)
    requires t in db
  {
    && n <= |rows|
    && InsertPages(db, fks, t, rows) == (Grown(db, t, rows[..n]), n == |rows|)
    && (n < |rows| ==> n % 1000 == 0 && !Insert(Grown(db, t, rows[..n]), fks, t, PageAt(rows, n)).1)
  }

  lemma {:induction false} StoredBehind(db: Db, fks: set<Fk>, t: Table, rows: seq<Row>, page: nat, k: nat)
    requires t in db && rows != [] && page == |PageAt(rows, 0)| && Insert(db, fks, t, PageAt(rows, 0)).1
    requires StoredUpTo(Grown(db, t, rows[..page]), fks, t, rows[page..], k)
    ensures StoredUpTo(db, fks, t, rows, page + k)
  {
    FirstPageStored(db, fks, t, rows);
    assert PageAt(rows, 0) == rows[..page];
    GrownTwice(db, t, rows, page, k);
    PageBehind(rows, page, k);
  }

  /** How far a table's pages get: whole pages are stored up to the first that is refused, and stay. */
  lemma {:induction false} PagesStored(db: Db, fks: set<Fk>, t: Table, rows: seq<Row>) returns (n: nat)
    requires t in db
    ensures StoredUpTo(db, fks, t, rows, n)
    decreases |rows|
  {
    n := 0;
    GrownByNothing(db, t, rows);
    if rows != [] {
      if Insert(db, fks, t, PageAt(rows, 0)).1 {
        var page := |PageAt(rows, 0)|;
        var k := PagesStored(Grown(db, t, rows[..page]), fks, t, rows[page..]);
        StoredBehind(db, fks, t, rows, page, k);
        n := page + k;
      } else {
        FirstPageStored(db, fks, t, rows);
      }
    }
  }

  // -- A whole run -------------------------------------------------------------------------

  /** What a run loads: the rows read for each table that has something to copy. A table that is
      missing on one side, shares no column or is empty in the source is not in `load`. */
  type Load = map<Table, seq<Row>>

  function CopyTable(db: Db, fks: set<Fk>, load: Load, t: Table): (r: (Db, bool))
    requires load.Keys <= db.Keys
    ensures r.0.Keys == db.Keys
  {
    if t !in load then (db, true)
    else InsertPages(Truncate(db, fks, t), fks, t, load[t])
  }

  /** The first failed table aborts the run. */
  function CopyAll(db: Db, fks: set<Fk>, load: Load, order: seq<Table>): (r: (Db, bool))
    requires load.Keys <= db.Keys
    ensures r.0.Keys == db.Keys
  {
    if order == [] then (db, true)
    else
      var (before, ok) := CopyAll(db, fks, load, order[..|order| - 1]);
      if ok then CopyTable(before, fks, load, order[|order| - 1]) else (before, false)
  }

  // -- What one copy does ----------------------------------------------------------------------

  lemma {:induction false} InsertPagesLoads(db: Db, fks: set<Fk>, t: Table, rows: seq<Row>)
    requires t in db && InsertPages(db, fks, t, rows).1
    ensures InsertPages(db, fks, t, rows).0[t] == db[t] + rows
    decreases |rows|
  {
    if rows != [] {
      var page := if |rows| < BATCH_SIZE then |rows| else BATCH_SIZE;
      InsertPagesLoads(Insert(db, fks, t, rows[..page]).0, fks, t, rows[page..]);
      Appended(db[t], rows, page);
    }
  }

  lemma {:induction false} Appended(stored: seq<Row>, rows: seq<Row>, page: nat)
    requires page <= |rows|
    ensures stored + rows[..page] + rows[page..] == stored + rows
  {
    assert rows[..page] + rows[page..] == rows;
  }

  /** After a successful copy the table holds exactly what was loaded, its cascade is empty and
      every other table is as it was. */
  lemma {:induction false} CopyTableEffect(db: Db, fks: set<Fk>, load: Load, t: Table)
    requires load.Keys <= db.Keys && t in load
    ensures var (after, ok) := CopyTable(db, fks, load, t);
            && (ok ==> after[t] == load[t])
            && (forall u :: u in db && u != t ==>
                  after[u] == if u in Cascade(fks, t) then [] else db[u])
  {
    var cut := Truncate(db, fks, t);
    if InsertPages(cut, fks, t, load[t]).1 {
      InsertPagesLoads(cut, fks, t, load[t]);
      assert cut[t] + load[t] == load[t];
    }
  }

  // -- Referential integrity ----------------------------------------------------------------------

  lemma {:induction false} TruncateKeepsIntegrity(db: Db, fks: set<Fk>, t: Table)
    requires Integrity(db, fks)
    ensures Integrity(Truncate(db, fks, t), fks)
  {
    var cut, gone := Truncate(db, fks, t), Cascade(fks, t);
    forall u, row, fk | u in cut && row in cut[u] && fk in fks && fk.child == u && Refers(row, fk)
      ensures Resolves(cut, row, fk)
    {
      assert row in db[u] && RowOk(db, fks, u, row) && Resolves(db, row, fk);
      assert fk.parent in gone ==> fk.child in Children(fks, gone);
    }
  }

  lemma {:induction false} InsertKeepsIntegrity(db: Db, fks: set<Fk>, t: Table, batch: seq<Row>)
    requires t in db && Integrity(db, fks)
    ensures Integrity(Insert(db, fks, t, batch).0, fks)
  {
    var (after, ok) := Insert(db, fks, t, batch);
    if ok {
      forall u, row | u in after && row in after[u]
        ensures RowOk(after, fks, u, row)
      {
        if !(u == t && row in batch) {
          assert row in db[u] && RowOk(db, fks, u, row);
          forall fk | fk in fks && fk.child == u && Refers(row, fk)
            ensures Resolves(after, row, fk)
          {
            assert Resolves(db, row, fk);
            var p :| p in db[fk.parent] && fk.key in p && p[fk.key] == row[fk.column];
            assert p in after[fk.parent];
          }
        }
      }
    }
  }

  lemma {:induction false} InsertPagesKeepsIntegrity(db: Db, fks: set<Fk>, t: Table, rows: seq<Row>)
    requires t in db && Integrity(db, fks)
    ensures Integrity(InsertPages(db, fks, t, rows).0, fks)
    decreases |rows|
  {
    if rows != [] {
      var page := if |rows| < BATCH_SIZE then |rows| else BATCH_SIZE;
      InsertKeepsIntegrity(db, fks, t, rows[..page]);
      var (after, ok) := Insert(db, fks, t, rows[..page]);
      if ok {
        InsertPagesKeepsIntegrity(after, fks, t, rows[page..]);
      }
    }
  }

  /** Whatever the order and wherever a run stops, the target never holds a dangling reference. */
  lemma {:induction false} RunKeepsIntegrity(db: Db, fks: set<Fk>, load: Load, order: seq<Table>)
    requires load.Keys <= db.Keys && Integrity(db, fks)
    ensures Integrity(CopyAll(db, fks, load, order).0, fks)
    decreases |order|
  {
    if order != [] {
      RunKeepsIntegrity(db, fks, load, order[..|order| - 1]);
      var (before, ok) := CopyAll(db, fks, load, order[..|order| - 1]);
      var t := order[|order| - 1];
      if ok && t in load {
        TruncateKeepsIntegrity(before, fks, t);
        InsertPagesKeepsIntegrity(Truncate(before, fks, t), fks, t, load[t]);
      }
    }
  }

  // -- Which tables survive a run --------------------------------------------------------------------

  /** A table copied later in the order takes t with it when it is truncated. */
  predicate ErasedLater(fks: set<Fk>, load: Load, order: seq<Table>, i: nat) {
    exists j :: i < j < |order| && order[j] in load && i < |order| && order[i] in Cascade(fks, order[j])
  }

  /** What the last table of a successful run does to u. */
  lemma {:induction false} LastCopy(db: Db, fks: set<Fk>, load: Load, order: seq<Table>, u: Table)
    requires load.Keys <= db.Keys && order != [] && u in db
    requires CopyAll(db, fks, load, order).1
    ensures var n := |order| - 1;
            var (before, ok) := CopyAll(db, fks, load, order[..n]);
            && ok
            && CopyAll(db, fks, load, order).0[u]
               == if order[n] !in load then before[u]
                  else if u == order[n] then load[u]
                  else if u in Cascade(fks, order[n]) then []
                  else before[u]
  {
    var n := |order| - 1;
    var before := CopyAll(db, fks, load, order[..n]).0;
    if order[n] in load {
      CopyTableEffect(before, fks, load, order[n]);
    }
  }

  lemma {:induction false} ErasedLaterSplit(fks: set<Fk>, load: Load, order: seq<Table>, i: nat)
    requires i < |order| - 1
    ensures var n := |order| - 1;
            ErasedLater(fks, load, order, i)
              == (ErasedLater(fks, load, order[..n], i) || (order[n] in load && order[i] in Cascade(fks, order[n])))
  {
    var n := |order| - 1;
    var front := order[..n];
    assert forall j :: 0 <= j < n ==> front[j] == order[j];
    if ErasedLater(fks, load, front, i) {
      var j :| i < j < n && front[j] in load && front[i] in Cascade(fks, front[j]);
      assert order[j] in load && order[i] in Cascade(fks, order[j]);
    }
    if ErasedLater(fks, load, order, i) {
      var j :| i < j < |order| && order[j] in load && order[i] in Cascade(fks, order[j]);
      assert j < n ==> order[j] == front[j];
    }
  }

  /** For every order and every foreign-key graph: after a run that succeeded, a copied table holds
      its load exactly when no later copy cascades into it; otherwise it is empty. */
  lemma {:induction false} SurvivesIff(db: Db, fks: set<Fk>, load: Load, order: seq<Table>, i: nat)
    requires load.Keys <= db.Keys && NoRepeats(order)
    requires i < |order| && order[i] in load
    requires CopyAll(db, fks, load, order).1
    ensures CopyAll(db, fks, load, order).0[order[i]]
         == if ErasedLater(fks, load, order, i) then [] else load[order[i]]
    decreases |order|
  {
    var front := order[..|order| - 1];
    LastCopy(db, fks, load, order, order[i]);
    if i < |front| {
      assert front[i] == order[i] && order[|front|] != order[i];
      SurvivesIff(db, fks, load, front, i);
      ErasedLaterSplit(fks, load, order, i);
    } else {
      assert !ErasedLater(fks, load, order, i);
    }
  }

  /** A table that is not loaded is left alone or emptied by a cascade, never filled. */
  lemma {:induction false} UnloadedTables(db: Db, fks: set<Fk>, load: Load, order: seq<Table>, u: Table)
    requires load.Keys <= db.Keys && u in db && u !in load
    ensures CopyAll(db, fks, load, order).0[u] == db[u] || CopyAll(db, fks, load, order).0[u] == []
    decreases |order|
  {
    if order != [] {
      UnloadedTables(db, fks, load, order[..|order| - 1], u);
      var (before, ok) := CopyAll(db, fks, load, order[..|order| - 1]);
      var t := order[|order| - 1];
      if ok && t in load {
        CopyTableEffect(before, fks, load, t);
        assert CopyTable(before, fks, load, t).0[u] == if u in Cascade(fks, t) then [] else before[u];
      }
    }
  }

  // -- A topological order -------------------------------------------------------------------------------

  /** Parents first: every table referenced by a table of the order stands before it. */
  predicate Topological(fks: set<Fk>, order: seq<Table>) {
    forall fk, i :: fk in fks && 0 <= i < |order| && order[i] == fk.child ==> fk.parent in order[..i]
  }

  /** The rows to load are consistent among themselves: references resolve within the load. */
  predicate SelfContained(fks: set<Fk>, load: Load) {
    forall t, row :: t in load && row in load[t] ==> RowOk(load, fks, t, row)
  }

  /** A set that contains the parents of its members is out of reach of a cascade from outside. */
  lemma {:induction false} CascadeStaysOut(fks: set<Fk>, t: Table, safe: set<Table>)
    requires t !in safe && forall fk :: fk in fks && fk.child in safe ==> fk.parent in safe
    ensures Cascade(fks, t) !! safe
  {
    ClosureIsLeast(fks, {t}, (set fk | fk in fks :: fk.child) + {t} - safe);
  }

  lemma {:induction false} CascadeSparesEarlier(fks: set<Fk>, order: seq<Table>, i: nat)
    requires Topological(fks, order) && NoRepeats(order) && i < |order|
    ensures forall u :: u in order[..i] ==> u !in Cascade(fks, order[i])
  {
    var earlier := set u | u in order[..i];
    forall fk | fk in fks && fk.child in earlier
      ensures fk.parent in earlier
    {
      var j :| 0 <= j < i && order[..i][j] == fk.child;
      assert fk.parent in order[..j];
      assert order[..j] <= order[..i];
    }
    assert order[i] !in earlier;
    CascadeStaysOut(fks, order[i], earlier);
  }

  /** Every reference of the rows resolves outside t. */
  predicate ResolvesElsewhere(db: Db, fks: set<Fk>, t: Table, rows: seq<Row>) {
    forall row, fk :: row in rows && fk in fks && fk.child == t && Refers(row, fk)
      ==> fk.parent != t && Resolves(db, row, fk)
  }

  lemma {:induction false} BatchSucceeds(db: Db, fks: set<Fk>, t: Table, rows: seq<Row>, page: nat)
    requires t in db && page <= |rows| && ResolvesElsewhere(db, fks, t, rows)
    ensures var (after, ok) := Insert(db, fks, t, rows[..page]);
            ok && ResolvesElsewhere(after, fks, t, rows[page..])
  {
    var after := db[t := db[t] + rows[..page]];
    forall row, fk | row in rows && fk in fks && fk.child == t && Refers(row, fk)
      ensures fk.parent != t && Resolves(after, row, fk)
    {
      assert Resolves(db, row, fk) && after[fk.parent] == db[fk.parent];
    }
  }

  lemma {:induction false} InsertPagesSucceeds(db: Db, fks: set<Fk>, t: Table, rows: seq<Row>)
    requires t in db && ResolvesElsewhere(db, fks, t, rows)
    ensures InsertPages(db, fks, t, rows).1
    decreases |rows|
  {
    if rows != [] {
      var page := if |rows| < BATCH_SIZE then |rows| else BATCH_SIZE;
      BatchSucceeds(db, fks, t, rows, page);
      InsertPagesSucceeds(Insert(db, fks, t, rows[..page]).0, fks, t, rows[page..]);
    }
  }

  /** Once the earlier tables hold their loads, the next copy meets no violation. */
  lemma {:induction false} NextCopySucceeds(before: Db, fks: set<Fk>, load: Load, order: seq<Table>, n: nat)
    requires load.Keys <= before.Keys && NoRepeats(order) && Topological(fks, order)
    requires SelfContained(fks, load)
    requires n < |order| && order[n] in load
    requires forall u :: u in order[..n] && u in load ==> before[u] == load[u]
    ensures CopyTable(before, fks, load, order[n]).1
    ensures forall u :: u in order[..n] && u in load ==> CopyTable(before, fks, load, order[n]).0[u] == load[u]
  {
    var t := order[n];
    CascadeSparesEarlier(fks, order, n);
    var cut := Truncate(before, fks, t);
    forall row, fk | row in load[t] && fk in fks && fk.child == t && Refers(row, fk)
      ensures fk.parent != t && Resolves(cut, row, fk)
    {
      assert RowOk(load, fks, t, row) && Resolves(load, row, fk);
      assert fk.parent in order[..n];
      assert fk.parent !in Cascade(fks, t);
    }
    InsertPagesSucceeds(cut, fks, t, load[t]);
    CopyTableEffect(before, fks, load, t);
  }

  lemma {:induction false} FrontIsTopological(fks: set<Fk>, order: seq<Table>)
    requires order != [] && Topological(fks, order)
    ensures Topological(fks, order[..|order| - 1])
  {
    var front := order[..|order| - 1];
    forall fk, i | fk in fks && 0 <= i < |front| && front[i] == fk.child
      ensures fk.parent in front[..i]
    {
      assert order[i] == fk.child && front[..i] == order[..i];
    }
  }

  lemma {:induction false} LastTableArrives(before: Db, fks: set<Fk>, load: Load, order: seq<Table>)
    requires load.Keys <= before.Keys && NoRepeats(order) && Topological(fks, order) && order != []
    requires SelfContained(fks, load)
    requires forall u :: u in order[..|order| - 1] && u in load ==> before[u] == load[u]
    ensures var (after, ok) := CopyTable(before, fks, load, order[|order| - 1]);
            ok && forall t :: t in order && t in load ==> after[t] == load[t]
  {
    var n := |order| - 1;
    if order[n] in load {
      NextCopySucceeds(before, fks, load, order, n);
      CopyTableEffect(before, fks, load, order[n]);
    }
    assert order == order[..n] + [order[n]];
  }

  /** In a topological order every copy succeeds and nothing copied is ever erased. */
  lemma {:induction false} TopologicalRunCopiesAll(db: Db, fks: set<Fk>, load: Load, order: seq<Table>)
    requires load.Keys <= db.Keys && NoRepeats(order) && Topological(fks, order)
    requires SelfContained(fks, load)
    ensures CopyAll(db, fks, load, order).1
    ensures forall t :: t in order && t in load ==> CopyAll(db, fks, load, order).0[t] == load[t]
    decreases |order|
  {
    if order != [] {
      var front := order[..|order| - 1];
      FrontIsTopological(fks, order);
      TopologicalRunCopiesAll(db, fks, load, front);
      LastTableArrives(CopyAll(db, fks, load, front).0, fks, load, order);
    }
  }

  lemma {:induction false} ChildIsInCascade(fks: set<Fk>, fk: Fk)
    requires fk in fks
    ensures fk.child in Cascade(fks, fk.parent)
  {
    assert fk.child in Children(fks, Cascade(fks, fk.parent));
  }

  // -- When a run carries everything ---------------------------------------------------------------------

  /** What is loaded, over what the target held before. */
  function Loaded(db: Db, load: Load): Db {
    map t | t in db :: if t in load then load[t] else db[t]
  }

  /** References of the rows to load resolve in other loads or in tables that are not loaded. */
  predicate Consistent(db: Db, fks: set<Fk>, load: Load) {
    forall t, row :: t in load && row in load[t] ==> RowOk(Loaded(db, load), fks, t, row)
  }

  /** A load, its tables all named in the order, none of them empty or referring to itself. */
  predicate Proper(db: Db, fks: set<Fk>, load: Load, order: seq<Table>) {
    && load.Keys <= db.Keys && NoRepeats(order)
    && (forall t :: t in load ==> t in order && load[t] != [])
    && (forall fk :: fk in fks && fk.child in load ==> fk.parent != fk.child)
    && Consistent(db, fks, load)
  }

  /** Some row to load into t refers to u, which is not loaded. */
  predicate Needs(fks: set<Fk>, load: Load, t: Table, u: Table) {
    && t in load && u !in load
    && exists row, fk :: row in load[t] && fk in fks && fk.child == t && fk.parent == u && Refers(row, fk)
  }

  /** No copy takes with it a table copied before. */
  predicate SparesCopied(fks: set<Fk>, load: Load, order: seq<Table>) {
    forall i, j :: 0 <= i < j < |order| && order[i] in load && order[j] in load
      ==> order[i] !in Cascade(fks, order[j])
  }

  /** No copy takes with it a table that is not copied but referred to. */
  ghost predicate SparesNeeded(fks: set<Fk>, load: Load) {
    forall t, u, v :: Needs(fks, load, t, u) && v in load ==> u !in Cascade(fks, v)
  }

  predicate CarriesAll(db: Db, fks: set<Fk>, load: Load, order: seq<Table>)
    requires load.Keys <= db.Keys
  {
    var (after, ok) := CopyAll(db, fks, load, order);
    ok && forall t :: t in load ==> after[t] == load[t]
  }

  /** What a run has to keep up to its n-th table. */
  ghost predicate Carried(db: Db, fks: set<Fk>, load: Load, order: seq<Table>, n: nat)
    requires load.Keys <= db.Keys && n <= |order|
  {
    var (after, ok) := CopyAll(db, fks, load, order[..n]);
    && ok
    && (forall u :: u in order[..n] && u in load ==> after[u] == load[u])
    && (forall t, u :: Needs(fks, load, t, u) && u in db ==> after[u] == db[u])
  }

  /** The rows of the next table find what they refer to. */
  lemma {:induction false} NextFindsParents(
    db: Db, before: Db, fks: set<Fk>, load: Load, order: seq<Table>, n: nat, row: Row, fk: Fk)
    requires Proper(db, fks, load, order) && SparesCopied(fks, load, order) && SparesNeeded(fks, load)
    requires n < |order| && order[n] in load && before.Keys == db.Keys
    requires forall u :: u in order[..n] && u in load ==> before[u] == load[u]
    requires forall t, u :: Needs(fks, load, t, u) && u in db ==> before[u] == db[u]
    requires row in load[order[n]] && fk in fks && fk.child == order[n] && Refers(row, fk)
    ensures fk.parent != order[n] && Resolves(Truncate(before, fks, order[n]), row, fk)
  {
    var t, p := order[n], fk.parent;
    assert RowOk(Loaded(db, load), fks, t, row) && Resolves(Loaded(db, load), row, fk);
    if p in load {
      var i :| 0 <= i < |order| && order[i] == p;
      ChildIsInCascade(fks, fk);
      assert i < n;
      assert order[..n][i] == p;
    } else {
      assert Needs(fks, load, t, p);
    }
  }

  lemma {:induction false} NextIsCarried(db: Db, fks: set<Fk>, load: Load, order: seq<Table>, n: nat)
    requires Proper(db, fks, load, order) && SparesCopied(fks, load, order) && SparesNeeded(fks, load)
    requires n < |order| && Carried(db, fks, load, order, n)
    ensures Carried(db, fks, load, order, n + 1)
  {
    var before, t := CopyAll(db, fks, load, order[..n]).0, order[n];
    assert order[..n + 1][..n] == order[..n];
    if t in load {
      forall row, fk | row in load[t] && fk in fks && fk.child == t && Refers(row, fk)
        ensures fk.parent != t && Resolves(Truncate(before, fks, t), row, fk)
      {
        NextFindsParents(db, before, fks, load, order, n, row, fk);
      }
      InsertPagesSucceeds(Truncate(before, fks, t), fks, t, load[t]);
      CopyTableEffect(before, fks, load, t);
    }
  }

  lemma {:induction false} AllIsCarried(db: Db, fks: set<Fk>, load: Load, order: seq<Table>, n: nat)
    requires Proper(db, fks, load, order) && SparesCopied(fks, load, order) && SparesNeeded(fks, load)
    requires n <= |order|
    ensures Carried(db, fks, load, order, n)
    decreases n
  {
    if n > 0 {
      AllIsCarried(db, fks, load, order, n - 1);
      NextIsCarried(db, fks, load, order, n - 1);
    }
  }

  /** A table that is not loaded stays empty once a cascade has reached it. */
  lemma {:induction false} ErasedStaysEmpty(
    db: Db, fks: set<Fk>, load: Load, order: seq<Table>, j: nat, u: Table)
    requires load.Keys <= db.Keys && j < |order| && order[j] in load
    requires u in db && u !in load && u in Cascade(fks, order[j])
    requires CopyAll(db, fks, load, order).1
    ensures CopyAll(db, fks, load, order).0[u] == []
    decreases |order|
  {
    LastCopy(db, fks, load, order, u);
    if j < |order| - 1 {
      ErasedStaysEmpty(db, fks, load, order[..|order| - 1], j, u);
    }
  }

  lemma {:induction false} StoredRowsHaveParents(db: Db, fks: set<Fk>, t: Table, rows: seq<Row>, row: Row, fk: Fk)
    requires t in db && InsertPages(db, fks, t, rows).1 && row in rows
    requires fk in fks && fk.child == t && fk.parent != t && Refers(row, fk)
    ensures fk.parent in db && db[fk.parent] != []
    decreases |rows|
  {
    var page := if |rows| < BATCH_SIZE then |rows| else BATCH_SIZE;
    var after := Insert(db, fks, t, rows[..page]).0;
    assert rows == rows[..page] + rows[page..];
    if row in rows[..page] {
      assert RowOk(after, fks, t, row) && Resolves(after, row, fk);
    } else {
      StoredRowsHaveParents(after, fks, t, rows[page..], row, fk);
    }
  }

  lemma {:induction false} CarryingSparesCopied(db: Db, fks: set<Fk>, load: Load, order: seq<Table>, i: nat, j: nat)
    requires Proper(db, fks, load, order) && CarriesAll(db, fks, load, order)
    requires i < j < |order| && order[i] in load && order[j] in load
    ensures order[i] !in Cascade(fks, order[j])
  {
    SurvivesIff(db, fks, load, order, i);
  }

  /** A copy cannot succeed after a table that its rows refer to has been erased. */
  lemma {:induction false} ErasedParentStopsCopy(
    db: Db, fks: set<Fk>, load: Load, order: seq<Table>, i: nat, j: nat, row: Row, fk: Fk)
    requires Proper(db, fks, load, order) && CopyAll(db, fks, load, order).1
    requires j <= i < |order| && order[i] in load && order[j] in load
    requires row in load[order[i]] && fk in fks && fk.child == order[i] && Refers(row, fk)
    requires fk.parent !in load && fk.parent in db
    ensures fk.parent !in Cascade(fks, order[j])
  {
    var t, front := order[i], order[..i + 1];
    if fk.parent in Cascade(fks, order[j]) {
      if !CopyAll(db, fks, load, front).1 {
        AbortedRun(db, fks, load, order, i + 1);
      }
      assert front[j] == order[j] && front[i] == t && front[..i] == order[..i];
      var before := CopyAll(db, fks, load, front[..i]).0;
      ErasedStaysEmpty(db, fks, load, front, j, fk.parent);
      CopyTableEffect(before, fks, load, t);
      StoredRowsHaveParents(Truncate(before, fks, t), fks, t, load[t], row, fk);
    }
  }

  lemma {:induction false} CarryingSparesNeeded(
    db: Db, fks: set<Fk>, load: Load, order: seq<Table>, t: Table, u: Table, v: Table)
    requires Proper(db, fks, load, order) && CarriesAll(db, fks, load, order)
    requires Needs(fks, load, t, u) && v in load
    ensures u !in Cascade(fks, v)
  {
    var row, fk :| row in load[t] && fk in fks && fk.child == t && fk.parent == u && Refers(row, fk);
    var i :| 0 <= i < |order| && order[i] == t;
    var j :| 0 <= j < |order| && order[j] == v;
    assert RowOk(Loaded(db, load), fks, t, row) && Resolves(Loaded(db, load), row, fk);
    if i < j {
      assert u in Cascade(fks, v) ==> t in Children(fks, Cascade(fks, v));
      CarryingSparesCopied(db, fks, load, order, i, j);
    } else {
      ErasedParentStopsCopy(db, fks, load, order, i, j, row, fk);
    }
  }

  /** For every order, every foreign-key graph and any selection of tables: the run completes with
      every load in place exactly when no copy's cascade reaches a table copied before, nor one that is
      not copied but referred to. */
  lemma {:induction false} CarriesAllIff(db: Db, fks: set<Fk>, load: Load, order: seq<Table>)
    requires Proper(db, fks, load, order)
    ensures CarriesAll(db, fks, load, order) <==> SparesCopied(fks, load, order) && SparesNeeded(fks, load)
  {
    if SparesCopied(fks, load, order) && SparesNeeded(fks, load) {
      AllIsCarried(db, fks, load, order, |order|);
      assert order[..|order|] == order;
    }
    if CarriesAll(db, fks, load, order) {
      forall i, j | 0 <= i < j < |order| && order[i] in load && order[j] in load
        ensures order[i] !in Cascade(fks, order[j])
      {
        CarryingSparesCopied(db, fks, load, order, i, j);
      }
      forall t, u, v | Needs(fks, load, t, u) && v in load
        ensures u !in Cascade(fks, v)
      {
        CarryingSparesNeeded(db, fks, load, order, t, u, v);
      }
    }
  }

  // -- The order the script uses ------------------------------------------------------------------------------

  const TABLE_ORDER: seq<Table> := [
    Clients, Locations, Packages, ParentSkus, Products, ProductDefaults, Settings,
    RateCache, MockLabels, SyncMeta, CarrierAccounts, ReturnLabels, BillingRecords,
    Orders, OrderOverrides, Shipments,
    Inventory, InventorySkuParents, InventoryLedger, PackageLedger, PrintQueueOrders]

  const RETURN_LABELS_AT: nat := 11
  const ORDERS_AT: nat := 13
  const SHIPMENTS_AT: nat := 15

  /** The reference that the schema declares and the order disregards. */
  const RETURN_LABEL_FK := Fk(ReturnLabels, "shipment_id", Shipments, "id")
  const SHIPMENT_FK := Fk(Shipments, "order_id", Orders, "id")

  lemma {:induction false} ChildBeforeParentIsLost(
    db: Db, fks: set<Fk>, load: Load, order: seq<Table>, fk: Fk, i: nat, j: nat)
    requires load.Keys <= db.Keys && fk in fks && NoRepeats(order)
    requires i < j < |order| && order[i] == fk.child && order[j] == fk.parent
    requires fk.child in load && fk.parent in load
    requires CopyAll(db, fks, load, order).1
    ensures CopyAll(db, fks, load, order).0[fk.child] == []
  {
    ChildIsInCascade(fks, fk);
    SurvivesIff(db, fks, load, order, i);
  }

  function Place(t: Table): int {
    match t
    case Clients => 0 case Locations => 1 case Packages => 2 case ParentSkus => 3 case Products => 4
    case ProductDefaults => 5 case Settings => 6 case RateCache => 7 case MockLabels => 8
    case SyncMeta => 9 case CarrierAccounts => 10 case ReturnLabels => RETURN_LABELS_AT
    case BillingRecords => 12 case Orders => ORDERS_AT case OrderOverrides => 14 case Shipments => SHIPMENTS_AT
    case Inventory => 16 case InventorySkuParents => 17 case InventoryLedger => 18
    case PackageLedger => 19 case PrintQueueOrders => 20 case Unlisted(_) => -1
  }

  lemma {:induction false} ShippedOrderNamesTablesOnce()
    ensures NoRepeats(TABLE_ORDER)
    ensures forall i :: 0 <= i < |TABLE_ORDER| ==> Place(TABLE_ORDER[i]) == i
    ensures TABLE_ORDER[RETURN_LABELS_AT] == ReturnLabels
    ensures TABLE_ORDER[ORDERS_AT] == Orders && TABLE_ORDER[SHIPMENTS_AT] == Shipments
  {
    forall i | 0 <= i < |TABLE_ORDER| ensures Place(TABLE_ORDER[i]) == i {}
  }

  /** The foreign keys the schema declares on the tables of the order. */
  const SCHEMA_FKS: set<Fk> := {
    Fk(ParentSkus, "client_id", Clients, "id"),
    Fk(Orders, "client_id", Clients, "id"),
    Fk(OrderOverrides, "order_id", Orders, "id"),
    SHIPMENT_FK,
    Fk(Shipments, "client_id", Clients, "id"),
    Fk(Inventory, "client_id", Clients, "id"),
    Fk(InventorySkuParents, "inventory_id", Inventory, "id"),
    Fk(InventorySkuParents, "parent_sku_id", ParentSkus, "id"),
    Fk(InventoryLedger, "inventory_id", Inventory, "id"),
    Fk(InventoryLedger, "client_id", Clients, "id"),
    Fk(InventoryLedger, "order_id", Orders, "id"),
    Fk(PackageLedger, "package_id", Packages, "id"),
    RETURN_LABEL_FK,
    Fk(ReturnLabels, "return_shipment_id", Shipments, "id")}

  /** The declared references, and any others between tables that the order does not name. */
  predicate IsSchema(fks: set<Fk>) {
    SCHEMA_FKS <= fks && forall fk :: fk in fks && fk.child in TABLE_ORDER ==> fk in SCHEMA_FKS
  }

  lemma {:induction false} ParentsAreFew(fk: Fk)
    requires fk in SCHEMA_FKS
    ensures fk.parent in {Clients, Packages, ParentSkus, Orders, Shipments, Inventory}
  {}

  lemma {:induction false} ParentsAreNamed(fk: Fk)
    requires fk in SCHEMA_FKS
    ensures fk.parent in TABLE_ORDER && fk.parent != ReturnLabels
  {
    ParentsAreFew(fk);
    assert TABLE_ORDER[Place(fk.parent)] == fk.parent;
  }

  lemma {:induction false} ParentsStandBefore(fk: Fk)
    requires fk in SCHEMA_FKS
    ensures 0 <= Place(fk.parent)
    ensures fk.child != ReturnLabels ==> Place(fk.parent) < Place(fk.child)
  {}

  /** Where the references of return_labels lead. */
  const RETURN_LABEL_ANCESTORS: set<Table> := {ReturnLabels, Shipments, Orders, Clients}

  lemma {:induction false} AncestorsAreClosed(fk: Fk)
    requires fk in SCHEMA_FKS && fk.child in RETURN_LABEL_ANCESTORS
    ensures fk.parent in RETURN_LABEL_ANCESTORS
  {}

  /** No cascade of the shipped order reaches back to an earlier table other than return_labels. */
  lemma {:induction false} ShippedOrderSparesOthers(fks: set<Fk>, i: nat, j: nat)
    requires IsSchema(fks) && i < j < |TABLE_ORDER| && TABLE_ORDER[i] != ReturnLabels
    ensures TABLE_ORDER[i] !in Cascade(fks, TABLE_ORDER[j])
  {
    ShippedOrderNamesTablesOnce();
    var safe := set u | u in TABLE_ORDER && Place(u) < j && u != ReturnLabels;
    forall fk | fk in fks && fk.child in safe ensures fk.parent in safe {
      ParentsAreNamed(fk);
      ParentsStandBefore(fk);
    }
    CascadeStaysOut(fks, TABLE_ORDER[j], safe);
  }

  lemma {:induction false} CascadeReachesReturnLabels(fks: set<Fk>, t: Table)
    requires SHIPMENT_FK in fks && RETURN_LABEL_FK in fks && (t == Orders || t == Shipments)
    ensures ReturnLabels in Cascade(fks, t)
  {
    var gone := Cascade(fks, t);
    assert t == Orders ==> Shipments in Children(fks, gone);
    assert Shipments in gone;
    assert ReturnLabels in Children(fks, gone);
  }

  lemma {:induction false} ReturnLabelsReached(fks: set<Fk>, t: Table)
    requires IsSchema(fks) && t != Clients && t != ReturnLabels
    ensures ReturnLabels in Cascade(fks, t) <==> t == Orders || t == Shipments
  {
    if t in RETURN_LABEL_ANCESTORS {
      assert SHIPMENT_FK in SCHEMA_FKS && RETURN_LABEL_FK in SCHEMA_FKS;
      CascadeReachesReturnLabels(fks, t);
    } else {
      ShippedOrderNamesTablesOnce();
      forall fk | fk in fks && fk.child in RETURN_LABEL_ANCESTORS ensures fk.parent in RETURN_LABEL_ANCESTORS {
        assert TABLE_ORDER[Place(fk.child)] == fk.child;
        AncestorsAreClosed(fk);
      }
      CascadeStaysOut(fks, t, RETURN_LABEL_ANCESTORS);
    }
  }

  /** The return labels are left out, or else both orders and shipments are. */
  predicate ReturnLabelsApart(load: Load) {
    ReturnLabels in load ==> Orders !in load && Shipments !in load
  }

  lemma {:induction false} ShippedOrderSparesCopiedIff(fks: set<Fk>, load: Load)
    requires IsSchema(fks)
    ensures SparesCopied(fks, load, TABLE_ORDER) <==> ReturnLabelsApart(load)
  {
    ShippedOrderNamesTablesOnce();
    if ReturnLabelsApart(load) {
      forall i, j | 0 <= i < j < |TABLE_ORDER| && TABLE_ORDER[i] in load && TABLE_ORDER[j] in load
        ensures TABLE_ORDER[i] !in Cascade(fks, TABLE_ORDER[j])
      {
        if TABLE_ORDER[i] == ReturnLabels {
          ReturnLabelsReached(fks, TABLE_ORDER[j]);
        } else {
          ShippedOrderSparesOthers(fks, i, j);
        }
      }
    } else {
      var at := if Orders in load then ORDERS_AT else SHIPMENTS_AT;
      ReturnLabelsReached(fks, TABLE_ORDER[at]);
      assert TABLE_ORDER[RETURN_LABELS_AT] in load && TABLE_ORDER[at] in load;
    }
  }

  /** The shipped order, for any selection of tables: everything arrives exactly when return labels are
      not copied along with orders or shipments, and nothing referred to is erased. */
  lemma {:induction false} ShippedOrderCarriesAllIff(db: Db, fks: set<Fk>, load: Load)
    requires IsSchema(fks) && Proper(db, fks, load, TABLE_ORDER)
    ensures CarriesAll(db, fks, load, TABLE_ORDER) <==> ReturnLabelsApart(load) && SparesNeeded(fks, load)
  {
    CarriesAllIff(db, fks, load, TABLE_ORDER);
    ShippedOrderSparesCopiedIff(fks, load);
  }

  /** With the shipped order, return labels cannot arrive with orders or shipments: the run aborts, or
      it ends with return_labels empty although the source has return labels. */
  lemma {:induction false} ReturnLabelsNeverSurvive(db: Db, fks: set<Fk>, load: Load)
    requires load.Keys <= db.Keys && IsSchema(fks)
    requires ReturnLabels in load && (Orders in load || Shipments in load)
    ensures CopyAll(db, fks, load, TABLE_ORDER).1 ==> CopyAll(db, fks, load, TABLE_ORDER).0[ReturnLabels] == []
  {
    ShippedOrderNamesTablesOnce();
    if CopyAll(db, fks, load, TABLE_ORDER).1 {
      var at := if Orders in load then ORDERS_AT else SHIPMENTS_AT;
      ReturnLabelsReached(fks, TABLE_ORDER[at]);
      assert ErasedLater(fks, load, TABLE_ORDER, RETURN_LABELS_AT);
      SurvivesIff(db, fks, load, TABLE_ORDER, RETURN_LABELS_AT);
    }
  }

  /** The shipped order with one entry moved: return labels after shipments. */
  const MOVED_ORDER: seq<Table> := [
    Clients, Locations, Packages, ParentSkus, Products, ProductDefaults, Settings,
    RateCache, MockLabels, SyncMeta, CarrierAccounts, BillingRecords,
    Orders, OrderOverrides, Shipments, ReturnLabels,
    Inventory, InventorySkuParents, InventoryLedger, PackageLedger, PrintQueueOrders]

  function MovedPlace(t: Table): int {
    if t == ReturnLabels then SHIPMENTS_AT
    else if RETURN_LABELS_AT < Place(t) <= SHIPMENTS_AT then Place(t) - 1
    else Place(t)
  }

  lemma {:induction false} MovedOrderNamesTablesOnce()
    ensures forall i :: 0 <= i < |MOVED_ORDER| ==> MovedPlace(MOVED_ORDER[i]) == i
  {
    forall i | 0 <= i < |MOVED_ORDER| ensures MovedPlace(MOVED_ORDER[i]) == i {}
  }

  lemma {:induction false} SchemaParents(fk: Fk)
    requires fk in SCHEMA_FKS
    ensures 0 <= MovedPlace(fk.parent) < MovedPlace(fk.child)
  {}

  lemma {:induction false} MovedOrderHasParents(t: Table)
    requires t in {Clients, Packages, ParentSkus, Orders, Shipments, Inventory}
    ensures MovedPlace(t) < |MOVED_ORDER| && MOVED_ORDER[MovedPlace(t)] == t
  {}

  /** That one move is all the order needs: with it every declared reference points backwards. */
  lemma {:induction false} MovedOrderIsTopological(fks: set<Fk>)
    requires forall fk :: fk in fks && fk.child in MOVED_ORDER ==> fk in SCHEMA_FKS
    ensures NoRepeats(MOVED_ORDER) && Topological(fks, MOVED_ORDER)
  {
    MovedOrderNamesTablesOnce();
    PlacedOrderIsTopological(fks, MOVED_ORDER);
  }

  lemma {:induction false} PlacedOrderIsTopological(fks: set<Fk>, order: seq<Table>)
    requires forall i :: 0 <= i < |order| ==> MovedPlace(order[i]) == i
    requires forall fk :: fk in fks && fk.child in order ==> fk in SCHEMA_FKS
    requires order == MOVED_ORDER
    ensures NoRepeats(order) && Topological(fks, order)
  {
    forall fk, i | fk in fks && 0 <= i < |order| && order[i] == fk.child
      ensures fk.parent in order[..i]
    {
      SchemaParents(fk);
      ParentsAreFew(fk);
      MovedOrderHasParents(fk.parent);
      assert order[..i][MovedPlace(fk.parent)] == fk.parent;
    }
  }

  // -- From the source to the target ------------------------------------------------------------------------

  datatype SourceTable = SourceTable(columns: seq<Column>, rows: seq<Row>)

  type Source = map<Table, SourceTable>
  type Schema = map<Table, seq<Column>>

  datatype Only = Everything | Listed(tables: set<Table>)
  datatype Options = Options(dryRun: bool, only: Only)

  /** The source's columns that the target has too, in the source's order. */
  function SharedColumns(from: seq<Column>, to: seq<Column>): (r: seq<Column>)
    ensures forall c :: c in r <==> c in from && c in to
  {
    if from == [] then []
    else (if from[0] in to then [from[0]] else []) + SharedColumns(from[1..], to)
  }

  function Project(row: Row, columns: seq<Column>): Row {
    map c | c in columns && c in row :: row[c]
  }

  function ProjectAll(rows: seq<Row>, columns: seq<Column>): (r: seq<Row>)
    ensures |r| == |rows| && forall i :: 0 <= i < |rows| ==> r[i] == Project(rows[i], columns)
  {
    seq(|rows|, i requires 0 <= i < |rows| => Project(rows[i], columns))
  }

  function Columns(src: Source, schema: Schema, t: Table): seq<Column>
    requires t in src && t in schema
  {
    SharedColumns(src[t].columns, schema[t])
  }

  /** Present on both sides, with a shared column and at least one row. */
  predicate Copyable(src: Source, schema: Schema, t: Table) {
    t in src && t in schema && Columns(src, schema, t) != [] && src[t].rows != []
  }

  predicate Selected(options: Options, t: Table) {
    !options.dryRun && (options.only.Everything? || t in options.only.tables)
  }

  /** How the source answers the page queries of every table. */
  type Scans = Table -> Scan

  ghost predicate Answers(scans: Scans, src: Source) {
    forall t :: t in src ==> Reads(scans(t), |src[t].rows|)
  }

  ghost function LoadOf(src: Source, schema: Schema, options: Options, scans: Scans): (r: Load)
    requires Answers(scans, src)
  {
    map t | t in src && Selected(options, t) && Copyable(src, schema, t)
      :: Fetched(scans(t), |src[t].rows|, 0)
  }

  /** Each answer is the projected table in the order of its first shared column. */
  ghost predicate Honest(scans: Scans, src: Source, schema: Schema) {
    forall t :: t in src && Copyable(src, schema, t) ==>
      var columns := Columns(src, schema, t);
      Legal(scans(t), multiset(ProjectAll(src[t].rows, columns)), columns[0])
  }

  /** No tie of a table's first shared column falls on a page boundary. */
  ghost predicate Pageable(scans: Scans, src: Source, schema: Schema) {
    forall t :: t in src && Copyable(src, schema, t) ==>
      NoTieIsSplit(scans(t)(0), Columns(src, schema, t)[0])
  }

  /** Where a copied table refers to another one, the key it refers to is copied as well. */
  predicate CarriesKeys(src: Source, schema: Schema, fks: set<Fk>) {
    forall fk :: fk in fks && Copyable(src, schema, fk.child) && fk.column in Columns(src, schema, fk.child)
      ==> fk.parent in src && fk.parent in schema && fk.key in Columns(src, schema, fk.parent)
  }

  predicate SourceIntegrity(src: Source, fks: set<Fk>) {
    Integrity(map t | t in src :: src[t].rows, fks)
  }

  lemma {:induction false} LoadIsProjection(src: Source, schema: Schema, options: Options, scans: Scans, t: Table)
    requires Answers(scans, src) && Honest(scans, src, schema) && Pageable(scans, src, schema)
    requires t in LoadOf(src, schema, options, scans)
    ensures multiset(LoadOf(src, schema, options, scans)[t])
         == multiset(ProjectAll(src[t].rows, Columns(src, schema, t)))
  {
    var columns := Columns(src, schema, t);
    var rows := multiset(ProjectAll(src[t].rows, columns));
    assert |rows| == |src[t].rows|;
    PagingSoundIff(scans(t)(0), rows, columns[0]);
  }

  /** References that resolve in the source resolve among the rows that are loaded. */
  lemma {:induction false} LoadIsSelfContained(
    src: Source, schema: Schema, options: Options, scans: Scans, fks: set<Fk>)
    requires Answers(scans, src) && Honest(scans, src, schema) && Pageable(scans, src, schema)
    requires SourceIntegrity(src, fks) && CarriesKeys(src, schema, fks)
    requires options == Options(false, Everything)
    ensures SelfContained(fks, LoadOf(src, schema, options, scans))
  {
    var load := LoadOf(src, schema, options, scans);
    forall t, row | t in load && row in load[t]
      ensures RowOk(load, fks, t, row)
    {
      forall fk | fk in fks && fk.child == t && Refers(row, fk)
        ensures Resolves(load, row, fk)
      {
        LoadIsProjection(src, schema, options, scans, t);
        LoadedReferenceResolves(src, schema, options, scans, fks, fk, row);
      }
    }
  }

  lemma {:induction false} LoadedReferenceResolves(
    src: Source, schema: Schema, options: Options, scans: Scans, fks: set<Fk>, fk: Fk, row: Row)
    requires Answers(scans, src) && Honest(scans, src, schema) && Pageable(scans, src, schema)
    requires SourceIntegrity(src, fks) && CarriesKeys(src, schema, fks)
    requires options == Options(false, Everything)
    requires var load := LoadOf(src, schema, options, scans);
             && fk.child in load && row in load[fk.child]
             && multiset(load[fk.child]) == multiset(ProjectAll(src[fk.child].rows, Columns(src, schema, fk.child)))
    requires fk in fks && Refers(row, fk)
    ensures Resolves(LoadOf(src, schema, options, scans), row, fk)
  {
    var load := LoadOf(src, schema, options, scans);
    var original := Unprojected(src, schema, fk.child, row, load[fk.child]);
    ParentRow(src, fks, fk, original);
    var parent :| parent in src[fk.parent].rows && fk.key in parent && parent[fk.key] == original[fk.column];
    assert fk.column in Columns(src, schema, fk.child);
    assert fk.key in Columns(src, schema, fk.parent);
    LoadIsProjection(src, schema, options, scans, fk.parent);
    RowIsLoaded(src, schema, fk.parent, parent, load[fk.parent]);
  }

  lemma {:induction false} RowIsLoaded(src: Source, schema: Schema, t: Table, row: Row, loaded: seq<Row>)
    requires t in src && t in schema && row in src[t].rows
    requires multiset(loaded) == multiset(ProjectAll(src[t].rows, Columns(src, schema, t)))
    ensures Project(row, Columns(src, schema, t)) in loaded
  {
    var columns := Columns(src, schema, t);
    var i :| 0 <= i < |src[t].rows| && src[t].rows[i] == row;
    assert ProjectAll(src[t].rows, columns)[i] == Project(row, columns);
    assert Project(row, columns) in multiset(loaded);
  }

  lemma {:induction false} Unprojected(src: Source, schema: Schema, t: Table, row: Row, loaded: seq<Row>)
    returns (original: Row)
    requires t in src && t in schema && row in loaded
    requires multiset(loaded) == multiset(ProjectAll(src[t].rows, Columns(src, schema, t)))
    ensures original in src[t].rows && row == Project(original, Columns(src, schema, t))
  {
    var projected := ProjectAll(src[t].rows, Columns(src, schema, t));
    assert row in multiset(projected);
    var i :| 0 <= i < |projected| && projected[i] == row;
    original := src[t].rows[i];
  }

  lemma {:induction false} ParentRow(src: Source, fks: set<Fk>, fk: Fk, row: Row)
    requires SourceIntegrity(src, fks) && fk in fks
    requires fk.child in src && row in src[fk.child].rows && Refers(row, fk)
    ensures fk.parent in src
    ensures exists p :: p in src[fk.parent].rows && fk.key in p && p[fk.key] == row[fk.column]
  {
    var db := map t | t in src :: src[t].rows;
    assert RowOk(db, fks, fk.child, row) && Resolves(db, row, fk);
  }

  /** What the migration is for. With the tables in dependency order and no tie on a page boundary,
      a full run succeeds and leaves every copyable table with exactly the source's rows, projected
      to the shared columns; the target's references all resolve. */
  lemma {:induction false} MigrationCarriesEverything(
    db: Db, fks: set<Fk>, src: Source, schema: Schema, scans: Scans, order: seq<Table>)
    requires Answers(scans, src) && Honest(scans, src, schema) && Pageable(scans, src, schema)
    requires schema.Keys == db.Keys && Integrity(db, fks)
    requires SourceIntegrity(src, fks) && CarriesKeys(src, schema, fks)
    requires NoRepeats(order) && Topological(fks, order)
    ensures var load := LoadOf(src, schema, Options(false, Everything), scans);
            && CopyAll(db, fks, load, order).1
            && Integrity(CopyAll(db, fks, load, order).0, fks)
            && forall t :: t in order && Copyable(src, schema, t) ==>
                 multiset(CopyAll(db, fks, load, order).0[t])
                   == multiset(ProjectAll(src[t].rows, Columns(src, schema, t)))
  {
    var options := Options(false, Everything);
    var load := LoadOf(src, schema, options, scans);
    LoadIsSelfContained(src, schema, options, scans, fks);
    TopologicalRunCopiesAll(db, fks, load, order);
    RunKeepsIntegrity(db, fks, load, order);
    forall t | t in order && Copyable(src, schema, t)
      ensures multiset(CopyAll(db, fks, load, order).0[t])
           == multiset(ProjectAll(src[t].rows, Columns(src, schema, t)))
    {
      LoadIsProjection(src, schema, options, scans, t);
    }
  }

  // -- What a run loads ---------------------------------------------------------------------------------------

  /** A table is loaded exactly when this is no dry run, it is among the tables asked for if any were,
      it is there on both sides, has a row, and has a column that both sides have. */
  lemma {:induction false} LoadedIff(src: Source, schema: Schema, dryRun: bool, only: Only, scans: Scans, t: Table)
    requires Answers(scans, src)
    ensures t in LoadOf(src, schema, Options(dryRun, only), scans)
       <==> && !dryRun && (only.Listed? ==> t in only.tables)
            && t in src && t in schema && |src[t].rows| > 0
            && exists c :: c in src[t].columns && c in schema[t]
  {
    if t in src && t in schema {
      var columns := Columns(src, schema, t);
      assert columns != [] ==> columns[0] in src[t].columns && columns[0] in schema[t];
    }
  }

  /** A dry run changes nothing. */
  lemma {:induction false} DryRunChangesNothing(
    db: Db, fks: set<Fk>, src: Source, schema: Schema, only: Only, scans: Scans, order: seq<Table>)
    requires Answers(scans, src)
    ensures LoadOf(src, schema, Options(true, only), scans) == map[]
    ensures CopyAll(db, fks, map[], order) == (db, true)
    decreases |order|
  {
    assert LoadOf(src, schema, Options(true, only), scans) == map[];
    if order != [] {
      DryRunChangesNothing(db, fks, src, schema, only, scans, order[..|order| - 1]);
    }
  }

  /** A table that is not loaded, and not in the cascade of a table that is, is as it was. */
  lemma {:induction false} UntouchedTables(db: Db, fks: set<Fk>, load: Load, order: seq<Table>, u: Table)
    requires load.Keys <= db.Keys && u in db && u !in load
    requires forall t :: t in load ==> u !in Cascade(fks, t)
    ensures CopyAll(db, fks, load, order).0[u] == db[u]
    decreases |order|
  {
    if order != [] {
      UntouchedTables(db, fks, load, order[..|order| - 1], u);
      var (before, ok) := CopyAll(db, fks, load, order[..|order| - 1]);
      var t := order[|order| - 1];
      if ok && t in load {
        CopyTableEffect(before, fks, load, t);
      }
    }
  }

  // -- Comparing the counts -------------------------------------------------------------------------------------

  predicate CountsMatch(src: Source, db: Db, order: seq<Table>) {
    forall t :: t in order && t in src && t in db ==> |src[t].rows| == |db[t]|
  }

  /** After such a run the final count check can only object to tables that had nothing to copy. */
  lemma {:induction false} CountsAfterMigration(
    db: Db, fks: set<Fk>, src: Source, schema: Schema, scans: Scans, order: seq<Table>)
    requires Answers(scans, src) && Honest(scans, src, schema) && Pageable(scans, src, schema)
    requires schema.Keys == db.Keys && Integrity(db, fks)
    requires SourceIntegrity(src, fks) && CarriesKeys(src, schema, fks)
    requires NoRepeats(order) && Topological(fks, order)
    ensures var after := CopyAll(db, fks, LoadOf(src, schema, Options(false, Everything), scans), order).0;
            CountsMatch(src, after, order)
              == (forall t :: t in order && t in src && t in schema && !Copyable(src, schema, t)
                    ==> |src[t].rows| == |after[t]|)
  {
    var after := CopyAll(db, fks, LoadOf(src, schema, Options(false, Everything), scans), order).0;
    MigrationCarriesEverything(db, fks, src, schema, scans, order);
    forall t | t in order && Copyable(src, schema, t)
      ensures |after[t]| == |src[t].rows|
    {
      assert |multiset(after[t])| == |after[t]|;
      var projected := ProjectAll(src[t].rows, Columns(src, schema, t));
      assert |multiset(projected)| == |projected|;
    }
  }

  // -- A full run in the shipped order ----------------------------------------------------------------------------

  function Restricted(load: Load, order: seq<Table>): Load {
    map t | t in load && t in order :: load[t]
  }

  lemma {:induction false} NamedTableIsCopied(db: Db, fks: set<Fk>, load: Load, order: seq<Table>, t: Table)
    requires load.Keys <= db.Keys && t in order
    ensures CopyTable(db, fks, load, t) == CopyTable(db, fks, Restricted(load, order), t)
  {}

  lemma {:induction false} OnlyNamedTablesCount(db: Db, fks: set<Fk>, load: Load, order: seq<Table>, n: nat)
    requires load.Keys <= db.Keys && n <= |order|
    ensures CopyAll(db, fks, load, order[..n]) == CopyAll(db, fks, Restricted(load, order), order[..n])
    decreases n
  {
    if n > 0 {
      assert order[..n][..n - 1] == order[..n - 1] && order[..n][n - 1] == order[n - 1];
      OnlyNamedTablesCount(db, fks, load, order, n - 1);
      NamedTableIsCopied(CopyAll(db, fks, load, order[..n - 1]).0, fks, load, order, order[n - 1]);
    }
  }

  lemma {:induction false} NamedRowsResolve(db: Db, fks: set<Fk>, load: Load, row: Row, fk: Fk)
    requires load.Keys <= db.Keys && IsSchema(fks) && SelfContained(fks, load)
    requires fk in fks && fk.child in Restricted(load, TABLE_ORDER) && row in load[fk.child] && Refers(row, fk)
    ensures fk.parent in Restricted(load, TABLE_ORDER)
    ensures Resolves(Loaded(db, Restricted(load, TABLE_ORDER)), row, fk)
  {
    assert RowOk(load, fks, fk.child, row) && Resolves(load, row, fk);
    ParentsAreNamed(fk);
  }

  lemma {:induction false} NamedLoadIsProper(db: Db, fks: set<Fk>, load: Load)
    requires load.Keys <= db.Keys && IsSchema(fks) && SelfContained(fks, load)
    requires forall t :: t in load ==> load[t] != []
    ensures Proper(db, fks, Restricted(load, TABLE_ORDER), TABLE_ORDER)
    ensures SparesNeeded(fks, Restricted(load, TABLE_ORDER))
  {
    var named := Restricted(load, TABLE_ORDER);
    ShippedOrderNamesTablesOnce();
    forall t, row | t in named && row in named[t] ensures RowOk(Loaded(db, named), fks, t, row) {
      forall fk | fk in fks && fk.child == t && Refers(row, fk) ensures Resolves(Loaded(db, named), row, fk) {
        NamedRowsResolve(db, fks, load, row, fk);
      }
    }
    forall fk | fk in fks && fk.child in named ensures fk.parent != fk.child {
      ParentsAreNamed(fk);
      ParentsStandBefore(fk);
    }
    forall t, u ensures !Needs(fks, named, t, u) {
      if Needs(fks, named, t, u) {
        var row, fk :| row in named[t] && fk in fks && fk.child == t && fk.parent == u && Refers(row, fk);
        NamedRowsResolve(db, fks, load, row, fk);
      }
    }
  }

  lemma {:induction false} LoadsAreFull(src: Source, schema: Schema, options: Options, scans: Scans)
    requires Answers(scans, src) && Honest(scans, src, schema) && Pageable(scans, src, schema)
    ensures forall t :: t in LoadOf(src, schema, options, scans) ==> LoadOf(src, schema, options, scans)[t] != []
  {
    var load := LoadOf(src, schema, options, scans);
    forall t | t in load ensures load[t] != [] {
      LoadIsProjection(src, schema, options, scans, t);
      var projected := ProjectAll(src[t].rows, Columns(src, schema, t));
      assert projected[0] in multiset(projected);
      assert projected[0] in multiset(load[t]);
    }
  }

  /** A complete and consistent load in the shipped order. */
  lemma {:induction false} ShippedLoadArrivesIff(db: Db, fks: set<Fk>, load: Load)
    requires load.Keys <= db.Keys && IsSchema(fks) && SelfContained(fks, load)
    requires forall t :: t in load ==> load[t] != []
    ensures var (after, ok) := CopyAll(db, fks, load, TABLE_ORDER);
            (ok && forall t :: t in TABLE_ORDER && t in load ==> after[t] == load[t]) <==> ReturnLabelsApart(load)
  {
    var named := Restricted(load, TABLE_ORDER);
    NamedLoadIsProper(db, fks, load);
    ShippedOrderCarriesAllIff(db, fks, named);
    OnlyNamedTablesCount(db, fks, load, TABLE_ORDER, |TABLE_ORDER|);
    assert TABLE_ORDER[..|TABLE_ORDER|] == TABLE_ORDER;
    ShippedOrderNamesTablesOnce();
    assert ReturnLabels in TABLE_ORDER && Orders in TABLE_ORDER && Shipments in TABLE_ORDER;
  }

  /** A full run in the shipped order carries everything exactly when there are no return labels to
      copy, or neither orders nor shipments. */
  lemma {:induction false} ShippedRunCarriesAllIff(
    db: Db, fks: set<Fk>, src: Source, schema: Schema, scans: Scans)
    requires Answers(scans, src) && Honest(scans, src, schema) && Pageable(scans, src, schema)
    requires schema.Keys == db.Keys && IsSchema(fks)
    requires SourceIntegrity(src, fks) && CarriesKeys(src, schema, fks)
    ensures var load := LoadOf(src, schema, Options(false, Everything), scans);
            var (after, ok) := CopyAll(db, fks, load, TABLE_ORDER);
            (ok && forall t :: t in TABLE_ORDER && Copyable(src, schema, t) ==> after[t] == load[t])
              <==> (Copyable(src, schema, ReturnLabels) ==>
                      !Copyable(src, schema, Orders) && !Copyable(src, schema, Shipments))
  {
    var load := LoadOf(src, schema, Options(false, Everything), scans);
    LoadIsSelfContained(src, schema, Options(false, Everything), scans, fks);
    LoadsAreFull(src, schema, Options(false, Everything), scans);
    ShippedLoadArrivesIff(db, fks, load);
    assert forall t :: t in load <==> Copyable(src, schema, t);
  }

  /** In that case the run does not pass its own count check either: it aborts or the counts differ. */
  lemma {:induction false} ShippedOrderNeverVerifies(
    db: Db, fks: set<Fk>, src: Source, schema: Schema, scans: Scans)
    requires Answers(scans, src) && schema.Keys == db.Keys && IsSchema(fks)
    requires Copyable(src, schema, ReturnLabels)
    requires Copyable(src, schema, Orders) || Copyable(src, schema, Shipments)
    ensures var (after, ok) :=
              CopyAll(db, fks, LoadOf(src, schema, Options(false, Everything), scans), TABLE_ORDER);
            !ok || !CountsMatch(src, after, TABLE_ORDER)
  {
    var load := LoadOf(src, schema, Options(false, Everything), scans);
    ShippedOrderNamesTablesOnce();
    ReturnLabelsNeverSurvive(db, fks, load);
    assert ReturnLabels in TABLE_ORDER;
  }

  // -- The script ----------------------------------------------------------------------------------------------------

  class Target {
    const fks: set<Fk>
    const schema: Schema
    var tables: Db

    constructor (fks: set<Fk>, schema: Schema, tables: Db)
      ensures this.fks == fks && this.schema == schema && this.tables == tables
    {
      this.fks, this.schema, this.tables := fks, schema, tables;
    }

    method CopyTable(src: Source, scan: Scan, dryRun: bool, t: Table) returns (ok: bool, copied: nat)
      requires schema.Keys == tables.Keys
      requires t in src ==> Reads(scan, |src[t].rows|)
      modifies this
      ensures schema.Keys == tables.Keys
      ensures dryRun || !Copyable(src, schema, t) ==> ok && copied == 0 && tables == old(tables)
      ensures !dryRun && Copyable(src, schema, t) ==>
                && (tables, ok) == InsertPages(Truncate(old(tables), fks, t), fks, t,
                                               Fetched(scan, |src[t].rows|, 0))
                && (ok ==> copied == |src[t].rows|)
    {
      copied, ok := 0, true;
      var ready := ReadyToCopy(src, dryRun, t);
      if ready {
        tables := Truncate(tables, fks, t);
        ok, copied := CopyPages(scan, |src[t].rows|, t);
      }
    }

    method ReadyToCopy(src: Source, dryRun: bool, t: Table) returns (ready: bool)
      ensures ready == (!dryRun && Copyable(src, schema, t))
    {
      if t !in src {
        return false;
      }
      if t !in schema {
        return false;
      }
      var columns := SharedColumns(src[t].columns, schema[t]);
      if |columns| == 0 {
        return false;
      }
      if |src[t].rows| == 0 {
        return false;
      }
      return !dryRun;
    }

    method CopyPages(scan: Scan, total: nat, t: Table) returns (ok: bool, copied: nat)
      requires t in tables && Reads(scan, total)
      modifies this
      ensures (tables, ok) == InsertPages(old(tables), fks, t, Fetched(scan, total, 0))
      ensures ok ==> copied == total
    {
      copied := 0;
      var offset := 0;
      while offset < total
        invariant t in tables
        invariant copied == if offset < total then offset else total
        invariant InsertPages(old(tables), fks, t, Fetched(scan, total, 0))
               == InsertPages(tables, fks, t, Fetched(scan, total, offset))
      {
        var batch := scan(offset)[offset..PageEnd(total, offset)];
        InsertFirstPage(tables, fks, t, scan, total, offset);
        ghost var before := tables;
        ok := InsertBatch(t, batch);
        InsertIs(before, tables, fks, t, batch, ok);
        if !ok {
          return;
        }
        copied, offset := copied + |batch|, offset + BATCH_SIZE;
      }
      ok := true;
    }

    method InsertBatch(t: Table, batch: seq<Row>) returns (ok: bool)
      requires t in tables
      modifies this
      ensures OnlyChanges(old(tables), tables, t)
      ensures ok <==> BatchOk(old(tables)[t := old(tables)[t] + batch], fks, t, batch)
      ensures tables[t] == if ok then old(tables)[t] + batch else old(tables)[t]
      ensures ok ==> forall row :: row in batch ==> RowOk(tables, fks, t, row)
      ensures Integrity(old(tables), fks) ==> Integrity(tables, fks)
    {
      ghost var sound := Integrity(tables, fks);
      if sound {
        InsertKeepsIntegrity(tables, fks, t, batch);
      }
      var inserted := Insert(tables, fks, t, batch);
      tables, ok := inserted.0, inserted.1;
    }

    method CopyTables(src: Source, scans: Scans, options: Options, order: seq<Table>) returns (ok: bool)
      requires schema.Keys == tables.Keys && Answers(scans, src)
      modifies this
      ensures schema.Keys == tables.Keys
      ensures (tables, ok) == CopyAll(old(tables), fks, LoadOf(src, schema, options, scans), order)
    {
      ok := true;
      ghost var load := LoadOf(src, schema, options, scans);
      for i := 0 to |order|
        invariant schema.Keys == tables.Keys && ok
        invariant (tables, true) == CopyAll(old(tables), fks, load, order[..i])
      {
        var t := order[i];
        assert order[..i + 1][..i] == order[..i];
        if options.only.Everything? || t in options.only.tables {
          var copied;
          ok, copied := CopyTable(src, scans(t), options.dryRun, t);
          if !ok {
            AbortedRun(old(tables), fks, load, order, i + 1);
            return;
          }
        }
      }
      assert order[..|order|] == order;
    }

    method VerifyCounts(src: Source, order: seq<Table>) returns (allMatch: bool)
      ensures allMatch <==> CountsMatch(src, tables, order)
    {
      allMatch := true;
      for i := 0 to |order|
        invariant allMatch <==> CountsMatch(src, tables, order[..i])
      {
        var t := order[i];
        if t in src && t in tables && |src[t].rows| != |tables[t]| {
          allMatch := false;
        }
        assert order[..i + 1] == order[..i] + [t];
      }
      assert order[..|order|] == order;
    }
  }

  /** What InsertBatch says is all there is to an INSERT. */
  lemma {:induction false} InsertIs(before: Db, after: Db, fks: set<Fk>, t: Table, batch: seq<Row>, ok: bool)
    requires t in before && OnlyChanges(before, after, t)
    requires ok <==> BatchOk(before[t := before[t] + batch], fks, t, batch)
    requires after[t] == if ok then before[t] + batch else before[t]
    ensures Insert(before, fks, t, batch) == (after, ok)
  {
    assert after == if ok then before[t := before[t] + batch] else before;
  }

  lemma {:induction false} FirstPage(scan: Scan, total: nat, offset: nat)
    requires Reads(scan, total) && offset < total
    ensures var rows, page := Fetched(scan, total, offset), scan(offset)[offset..PageEnd(total, offset)];
            && rows != []
            && |page| == (if |rows| < BATCH_SIZE then |rows| else BATCH_SIZE)
            && rows[..|page|] == page
            && rows[|page|..] == Fetched(scan, total, offset + BATCH_SIZE)
  {}

  lemma {:induction false} InsertFirstPage(db: Db, fks: set<Fk>, t: Table, scan: Scan, total: nat, offset: nat)
    requires t in db && Reads(scan, total) && offset < total
    ensures var (after, ok) := Insert(db, fks, t, scan(offset)[offset..PageEnd(total, offset)]);
            InsertPages(db, fks, t, Fetched(scan, total, offset))
              == if ok then InsertPages(after, fks, t, Fetched(scan, total, offset + BATCH_SIZE)) else (after, false)
  {
    FirstPage(scan, total, offset);
  }

  lemma {:induction false} AbortedRun(db: Db, fks: set<Fk>, load: Load, order: seq<Table>, n: nat)
    requires load.Keys <= db.Keys && n <= |order| && !CopyAll(db, fks, load, order[..n]).1
    ensures CopyAll(db, fks, load, order) == CopyAll(db, fks, load, order[..n])
    decreases |order|
  {
    if n < |order| {
      var front := order[..|order| - 1];
      assert front[..n] == order[..n];
      AbortedRun(db, fks, load, front, n);
    } else {
      assert order[..n] == order;
    }
  }
}
