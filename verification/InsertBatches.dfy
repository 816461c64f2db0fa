/** The batched insert-if-absent copy of one table: `insert ... values ($1,...),... on conflict do
    nothing`, a hundred rows a statement, then the sequence bump. */
module InsertBatches {
  import opened Common

  datatype Value = Null | Number(n: int) | Text(s: string)

  /** The shared columns of one row, in the order of the column list. */
  type Row = seq<Value>

  const BATCH: nat := 100
  const READ_LIMIT: nat := 5000
  const BIND_LIMIT: nat := 65535

  // -- The statement text ------------------------------------------------------------------

  datatype Token = Open | Close | Comma | Param(n: nat)

  function Join(parts: seq<seq<Token>>): seq<Token> {
    if parts == [] then []
    else if |parts| == 1 then parts[0]
    else parts[0] + [Comma] + Join(parts[1..])
  }

  function Params(first: nat, columns: nat): seq<seq<Token>> {
    seq(columns, column requires 0 <= column < columns => [Param(first + column + 1)])
  }

  function RowText(first: nat, columns: nat): seq<Token> {
    [Open] + Join(Params(first, columns)) + [Close]
  }

  function RowTexts(rows: nat, columns: nat): seq<seq<Token>> {
    seq(rows, row requires 0 <= row < rows => RowText(row * columns, columns))
  }

  /** `($1,$2),($3,$4),...` */
  function Placeholders(rows: nat, columns: nat): seq<Token> {
    Join(RowTexts(rows, columns))
  }

  function Arguments(batch: seq<Row>): seq<Value> {
    if batch == [] then [] else batch[0] + Arguments(batch[1..])
  }

  // -- How the server reads it ---------------------------------------------------------------

  datatype Parsed<T> = Parsed(items: T, rest: seq<Token>) | SyntaxError

  /** $a,$b,...) */
  function ReadParams(text: seq<Token>): (r: Parsed<seq<nat>>)
    ensures r.Parsed? ==> |r.rest| < |text|
  {
    if |text| < 2 || !text[0].Param? then SyntaxError
    else if text[1] == Close then Parsed([text[0].n], text[2..])
    else if text[1] == Comma then
      match ReadParams(text[2..])
      case Parsed(items, rest) => Parsed([text[0].n] + items, rest)
      case SyntaxError => SyntaxError
    else SyntaxError
  }

  /** (...),(...),... up to the end of the text */
  function ReadRows(text: seq<Token>): Parsed<seq<seq<nat>>>
    decreases |text|
  {
    if text == [] || text[0] != Open then SyntaxError
    else
      match ReadParams(text[1..])
      case SyntaxError => SyntaxError
      case Parsed(row, rest) =>
        if rest == [] then Parsed([row], [])
        else if rest[0] != Comma then SyntaxError
        else
          match ReadRows(rest[1..])
          case SyntaxError => SyntaxError
          case Parsed(rows, end) => Parsed([row] + rows, end)
  }

  function BindRow(numbers: seq<nat>, arguments: seq<Value>): Option<Row> {
    if forall c :: 0 <= c < |numbers| ==> 1 <= numbers[c] <= |arguments|
    then Some(seq(|numbers|, c requires 0 <= c < |numbers| => arguments[numbers[c] - 1]))
    else None
  }

  function Bind(numbers: seq<seq<nat>>, arguments: seq<Value>): Option<seq<Row>> {
    if numbers == [] then Some([])
    else
      match (BindRow(numbers[0], arguments), Bind(numbers[1..], arguments))
      case (Some(row), Some(rows)) => Some([row] + rows)
      case _ => None
  }

  /** The rows a statement asks to insert. */
  function ProposedRows(text: seq<Token>, arguments: seq<Value>): Option<seq<Row>> {
    if |arguments| > BIND_LIMIT then None
    else
      match ReadRows(text)
      case SyntaxError => None
      case Parsed(numbers, _) => Bind(numbers, arguments)
  }

  // -- The statement carries the batch --------------------------------------------------------

  predicate HasWidth(rows: seq<Row>, columns: nat) {
    forall i :: 0 <= i < |rows| ==> |rows[i]| == columns
  }

  function Numbers(first: nat, columns: nat): (r: seq<nat>) {
    seq(columns, column requires 0 <= column < columns => first + column + 1)
  }

  /** The numbers first + 1, first + 2, ... laid out in rows. */
  function Grid(first: nat, rows: nat, columns: nat): (r: seq<seq<nat>>)
    ensures |r| == rows
    decreases rows
  {
    if rows == 0 then [] else [Numbers(first, columns)] + Grid(first + columns, rows - 1, columns)
  }

  /** The same text, built row after row. */
  function TextsFrom(first: nat, rows: nat, columns: nat): (r: seq<seq<Token>>)
    ensures |r| == rows
    decreases rows
  {
    if rows == 0 then [] else [RowText(first, columns)] + TextsFrom(first + columns, rows - 1, columns)
  }

  lemma {:induction false} TextsFromAt(first: nat, rows: nat, columns: nat, row: nat)
    requires row < rows
    ensures TextsFrom(first, rows, columns)[row] == RowText(first + row * columns, columns)
    decreases rows
  {
    if row > 0 {
      TextsFromAt(first + columns, rows - 1, columns, row - 1);
      assert columns + (row - 1) * columns == row * columns;
    }
  }

  lemma {:induction false} TextsAreTextsFrom(rows: nat, columns: nat)
    ensures RowTexts(rows, columns) == TextsFrom(0, rows, columns)
  {
    forall row | 0 <= row < rows
      ensures RowTexts(rows, columns)[row] == TextsFrom(0, rows, columns)[row]
    {
      TextsFromAt(0, rows, columns, row);
    }
  }

  lemma {:induction false} ReadParamsReadsRow(first: nat, columns: nat, rest: seq<Token>)
    requires columns > 0
    ensures ReadParams(Join(Params(first, columns)) + [Close] + rest) == Parsed(Numbers(first, columns), rest)
    decreases columns
  {
    var parts := Params(first, columns);
    var text := Join(parts) + [Close] + rest;
    if columns == 1 {
      assert text == [Param(first + 1), Close] + rest;
      assert text[2..] == rest;
      assert Numbers(first, columns) == [first + 1];
    } else {
      assert parts[1..] == Params(first + 1, columns - 1);
      var tail := Join(parts[1..]) + [Close] + rest;
      assert text == [Param(first + 1), Comma] + tail;
      assert text[2..] == tail;
      ReadParamsReadsRow(first + 1, columns - 1, rest);
      assert Numbers(first, columns) == [first + 1] + Numbers(first + 1, columns - 1);
    }
  }

  lemma {:induction false} ReadOneRow(first: nat, columns: nat)
    requires columns > 0
    ensures ReadRows(RowText(first, columns)) == Parsed([Numbers(first, columns)], [])
  {
    var text := RowText(first, columns);
    assert text[1..] == Join(Params(first, columns)) + [Close] + [];
    ReadParamsReadsRow(first, columns, []);
  }

  lemma {:induction false} ReadMoreRows(first: nat, columns: nat, more: seq<Token>, numbers: seq<seq<nat>>)
    requires columns > 0 && ReadRows(more) == Parsed(numbers, [])
    ensures ReadRows(RowText(first, columns) + ([Comma] + more)) == Parsed([Numbers(first, columns)] + numbers, [])
  {
    var rest := [Comma] + more;
    var text := RowText(first, columns) + rest;
    assert text[1..] == Join(Params(first, columns)) + [Close] + rest;
    ReadParamsReadsRow(first, columns, rest);
    assert rest[1..] == more;
  }

  lemma {:induction false} JoinStep(part: seq<Token>, parts: seq<seq<Token>>)
    ensures Join([part] + parts) == if parts == [] then part else part + ([Comma] + Join(parts))
  {
    assert ([part] + parts)[1..] == parts;
    if parts != [] {
      assert part + [Comma] + Join(parts) == part + ([Comma] + Join(parts));
    }
  }

  lemma {:induction false} ReadRowsReadsGrid(first: nat, rows: nat, columns: nat)
    requires rows > 0 && columns > 0
    ensures ReadRows(Join(TextsFrom(first, rows, columns))) == Parsed(Grid(first, rows, columns), [])
    decreases rows
  {
    var tail, numbers := TextsFrom(first + columns, rows - 1, columns), Grid(first + columns, rows - 1, columns);
    JoinStep(RowText(first, columns), tail);
    if rows > 1 {
      ReadRowsReadsGrid(first + columns, rows - 1, columns);
      ReadMoreRows(first, columns, Join(tail), numbers);
    } else {
      ReadOneRow(first, columns);
      assert [Numbers(first, columns)] + numbers == [Numbers(first, columns)];
    }
  }

  lemma {:induction false} NumbersBindRow(sent: seq<Value>, row: Row, more: seq<Value>)
    ensures BindRow(Numbers(|sent|, |row|), sent + (row + more)) == Some(row)
  {
    var arguments, numbers := sent + (row + more), Numbers(|sent|, |row|);
    assert forall c :: 0 <= c < |row| ==> arguments[numbers[c] - 1] == row[c];
    assert BindRow(numbers, arguments).value == row;
  }

  lemma {:induction false} BindStep(
    first: seq<nat>, rest: seq<seq<nat>>, arguments: seq<Value>, row: Row, rows: seq<Row>)
    requires BindRow(first, arguments) == Some(row) && Bind(rest, arguments) == Some(rows)
    ensures Bind([first] + rest, arguments) == Some([row] + rows)
  {
    assert ([first] + rest)[1..] == rest;
  }

  lemma {:induction false} GridBindsBatch(sent: seq<Value>, batch: seq<Row>, columns: nat)
    requires HasWidth(batch, columns)
    ensures Bind(Grid(|sent|, |batch|, columns), sent + Arguments(batch)) == Some(batch)
    decreases |batch|
  {
    if batch != [] {
      var row, more := batch[0], Arguments(batch[1..]);
      GridBindsBatch(sent + row, batch[1..], columns);
      assert (sent + row) + more == sent + (row + more);
      NumbersBindRow(sent, row, more);
      BindStep(Numbers(|sent|, columns), Grid(|sent + row|, |batch| - 1, columns), sent + (row + more), row, batch[1..]);
      assert [row] + batch[1..] == batch;
    }
  }

  lemma {:induction false} ArgumentCount(batch: seq<Row>, columns: nat)
    requires HasWidth(batch, columns)
    ensures |Arguments(batch)| == |batch| * columns
    decreases |batch|
  {
    if batch != [] {
      ArgumentCount(batch[1..], columns);
      assert columns + (|batch| - 1) * columns == |batch| * columns;
    }
  }

  /** Round trip: the server reads from the numbered text and the flat argument list exactly the
      rows of the batch, unless the batch needs more arguments than a statement may have. */
  lemma {:induction false} StatementCarriesBatch(batch: seq<Row>, columns: nat)
    requires HasWidth(batch, columns) && columns > 0 && batch != []
    ensures ProposedRows(Placeholders(|batch|, columns), Arguments(batch))
         == if |Arguments(batch)| <= 65535 then Some(batch) else None
  {
    TextsAreTextsFrom(|batch|, columns);
    ReadRowsReadsGrid(0, |batch|, columns);
    GridBindsBatch([], batch, columns);
    assert [] + Arguments(batch) == Arguments(batch);
  }

  // -- Insert if absent ------------------------------------------------------------------------

  /** The destination table by conflict key. */
  type Rows = map<Value, Row>

  predicate Keyed(rows: seq<Row>, key: nat) {
    forall i :: 0 <= i < |rows| ==> key < |rows[i]|
  }

  predicate UniqueKeys(rows: seq<Row>, key: nat) {
    && Keyed(rows, key)
    && forall i, j :: 0 <= i < j < |rows| ==> rows[i][key] != rows[j][key]
  }

  function Put(dest: Rows, row: Row, key: nat): Rows
    requires key < |row|
  {
    if row[key] in dest then dest else dest[row[key] := row]
  }

  /** `on conflict (key) do nothing`, row by row: also between rows of one statement. */
  function InsertAll(dest: Rows, rows: seq<Row>, key: nat): Rows
    requires Keyed(rows, key)
    decreases |rows|
  {
    if rows == [] then dest else InsertAll(Put(dest, rows[0], key), rows[1..], key)
  }

  /** The row count the server reports. */
  function InsertCount(dest: Rows, rows: seq<Row>, key: nat): nat
    requires Keyed(rows, key)
    decreases |rows|
  {
    if rows == [] then 0
    else (if rows[0][key] in dest then 0 else 1) + InsertCount(Put(dest, rows[0], key), rows[1..], key)
  }

  lemma {:induction false} CountIsGrowth(dest: Rows, rows: seq<Row>, key: nat)
    requires Keyed(rows, key)
    ensures |InsertAll(dest, rows, key)| == |dest| + InsertCount(dest, rows, key)
    decreases |rows|
  {
    if rows != [] {
      var row := rows[0];
      assert row[key] !in dest ==> dest[row[key] := row].Keys == dest.Keys + {row[key]};
      CountIsGrowth(Put(dest, row, key), rows[1..], key);
    }
  }

  lemma {:induction false} InsertAllAppends(dest: Rows, a: seq<Row>, b: seq<Row>, key: nat)
    requires Keyed(a, key) && Keyed(b, key)
    ensures InsertAll(dest, a + b, key) == InsertAll(InsertAll(dest, a, key), b, key)
    decreases |a|
  {
    if a == [] {
      assert a + b == b;
    } else {
      InsertAllAppends(Put(dest, a[0], key), a[1..], b, key);
      assert (a + b)[0] == a[0] && (a + b)[1..] == a[1..] + b;
    }
  }

  // -- What a copy is for --------------------------------------------------------------------------

  /** The old rows as they were, plus rows of the source whose key was free. */
  ghost predicate Between(rows: Rows, dest: Rows, source: set<Row>, key: nat)
    requires forall row :: row in source ==> key < |row|
  {
    && (forall k :: k in dest ==> k in rows && rows[k] == dest[k])
    && (forall k :: k in rows && k !in dest ==> rows[k] in source && rows[k][key] == k)
  }

  /** In addition every key of the source is present. */
  ghost predicate IsMerge(rows: Rows, dest: Rows, source: set<Row>, key: nat)
    requires forall row :: row in source ==> key < |row|
  {
    Between(rows, dest, source, key) && forall row :: row in source ==> row[key] in rows
  }

  ghost predicate UniqueSource(source: set<Row>, key: nat) {
    && (forall row :: row in source ==> key < |row|)
    && (forall a, b :: a in source && b in source && a[key] == b[key] ==> a == b)
  }

  lemma {:induction false} MergeIsUnique(a: Rows, b: Rows, dest: Rows, source: set<Row>, key: nat)
    requires UniqueSource(source, key)
    requires IsMerge(a, dest, source, key) && IsMerge(b, dest, source, key)
    ensures a == b
  {
    forall k | k in a ensures k in b && a[k] == b[k] {
      assert k !in dest ==> a[k] in source && a[k][key] in b;
    }
    forall k | k in b ensures k in a {
      assert k !in dest ==> b[k] in source && b[k][key] in a;
    }
  }

  lemma {:induction false} InsertAllStaysBetween(rows: Rows, dest: Rows, source: set<Row>, read: seq<Row>, key: nat)
    requires UniqueSource(source, key) && Between(rows, dest, source, key)
    requires forall i :: 0 <= i < |read| ==> read[i] in source
    ensures Between(InsertAll(rows, read, key), dest, source, key)
    ensures forall k :: k in rows ==> k in InsertAll(rows, read, key)
    ensures forall i :: 0 <= i < |read| ==> read[i][key] in InsertAll(rows, read, key)
    decreases |read|
  {
    if read != [] {
      var after := Put(rows, read[0], key);
      assert read[0] in source;
      InsertAllStaysBetween(after, dest, source, read[1..], key);
      assert forall i :: 1 <= i < |read| ==> read[i] == read[1..][i - 1];
      assert read[0][key] in after;
    }
  }

  // -- Aborted copies and reruns ---------------------------------------------------------------------

  /** One call: the rows in the order the source happened to return them, and how many of them were
      stored before a statement failed. */
  datatype Attempt = Attempt(read: seq<Row>, stored: nat)

  predicate IsAttempt(attempt: Attempt, source: seq<Row>) {
    multiset(attempt.read) == multiset(source) && attempt.stored <= |attempt.read|
  }

  function Replay(dest: Rows, attempts: seq<Attempt>, source: seq<Row>, key: nat): Rows
    requires Keyed(source, key)
    requires forall i :: 0 <= i < |attempts| ==> IsAttempt(attempts[i], source)
  {
    if attempts == [] then dest
    else
      var last := attempts[|attempts| - 1];
      ReadIsKeyed(last, source, key);
      InsertAll(Replay(dest, attempts[..|attempts| - 1], source, key), last.read[..last.stored], key)
  }

  ghost function RowSet(source: seq<Row>): set<Row> {
    set row | row in source
  }

  lemma {:induction false} ReadIsKeyed(attempt: Attempt, source: seq<Row>, key: nat)
    requires Keyed(source, key) && IsAttempt(attempt, source)
    ensures Keyed(attempt.read[..attempt.stored], key)
    ensures forall row :: row in attempt.read <==> row in source
  {
    assert forall row :: row in attempt.read ==> row in multiset(source);
    assert forall row :: row in source ==> row in multiset(attempt.read);
    forall i | 0 <= i < |attempt.read| ensures key < |attempt.read[i]| {
      assert attempt.read[i] in multiset(attempt.read);
    }
  }

  /** Whatever happened so far, no old row was altered and nothing but source rows was added. */
  lemma {:induction false} NothingIsAltered(dest: Rows, attempts: seq<Attempt>, source: seq<Row>, key: nat)
    requires UniqueKeys(source, key)
    requires forall i :: 0 <= i < |attempts| ==> IsAttempt(attempts[i], source)
    ensures UniqueSource(RowSet(source), key)
    ensures Between(Replay(dest, attempts, source, key), dest, RowSet(source), key)
    decreases |attempts|
  {
    if attempts != [] {
      var last := attempts[|attempts| - 1];
      NothingIsAltered(dest, attempts[..|attempts| - 1], source, key);
      ReadIsKeyed(last, source, key);
      var before := Replay(dest, attempts[..|attempts| - 1], source, key);
      assert forall i :: 0 <= i < last.stored ==> last.read[..last.stored][i] in last.read;
      InsertAllStaysBetween(before, dest, RowSet(source), last.read[..last.stored], key);
    }
  }

  lemma {:induction false} CleanCopyIsMerge(dest: Rows, source: seq<Row>, key: nat)
    requires UniqueKeys(source, key)
    ensures UniqueSource(RowSet(source), key)
    ensures IsMerge(InsertAll(dest, source, key), dest, RowSet(source), key)
  {
    InsertAllStaysBetween(dest, dest, RowSet(source), source, key);
  }

  /** Any number of aborted copies, each reading the source in an order of its own, followed by one
      that completes, end in the same rows as a single clean copy. */
  lemma {:induction false} EveryHistoryConverges(dest: Rows, attempts: seq<Attempt>, source: seq<Row>, key: nat)
    requires UniqueKeys(source, key)
    requires forall i :: 0 <= i < |attempts| ==> IsAttempt(attempts[i], source)
    requires attempts != [] && attempts[|attempts| - 1].stored == |source|
    ensures Replay(dest, attempts, source, key) == InsertAll(dest, source, key)
  {
    var n := |attempts| - 1;
    var last := attempts[n];
    NothingIsAltered(dest, attempts[..n], source, key);
    ReadIsKeyed(last, source, key);
    assert |multiset(last.read)| == |last.read| && |multiset(source)| == |source|;
    assert last.read[..last.stored] == last.read;
    InsertAllStaysBetween(Replay(dest, attempts[..n], source, key), dest, RowSet(source), last.read, key);
    var end := Replay(dest, attempts, source, key);
    forall row | row in source ensures row[key] in end {
      assert row in last.read;
    }
    CleanCopyIsMerge(dest, source, key);
    MergeIsUnique(end, InsertAll(dest, source, key), dest, RowSet(source), key);
  }

  lemma {:induction false} PresentKeysAddNothing(dest: Rows, rows: seq<Row>, key: nat)
    requires Keyed(rows, key) && forall i :: 0 <= i < |rows| ==> rows[i][key] in dest
    ensures InsertAll(dest, rows, key) == dest && InsertCount(dest, rows, key) == 0
    decreases |rows|
  {
    if rows != [] {
      PresentKeysAddNothing(dest, rows[1..], key);
    }
  }

  /** After a completed copy a further one changes nothing and reports 0. */
  lemma {:induction false} FurtherCopyAddsNothing(dest: Rows, source: seq<Row>, again: seq<Row>, key: nat)
    requires UniqueKeys(source, key) && multiset(again) == multiset(source)
    ensures var after := InsertAll(dest, source, key);
            && Keyed(again, key)
            && InsertAll(after, again, key) == after
            && InsertCount(after, again, key) == 0
  {
    CleanCopyIsMerge(dest, source, key);
    ReadIsKeyed(Attempt(again, 0), source, key);
    PresentKeysAddNothing(InsertAll(dest, source, key), again, key);
  }

  // -- The read limit ------------------------------------------------------------------------------------

  /** `select ... limit 5000` without an order. */
  predicate IsRead(read: seq<Row>, source: seq<Row>) {
    && multiset(read) <= multiset(source)
    && |read| == if |source| <= READ_LIMIT then |source| else READ_LIMIT
  }

  ghost predicate EveryReadSuffices(dest: Rows, source: seq<Row>, key: nat)
    requires Keyed(source, key)
  {
    forall read :: IsRead(read, source) ==> CopiesAll(dest, read, source, key)
  }

  ghost predicate CopiesAll(dest: Rows, read: seq<Row>, source: seq<Row>, key: nat)
    requires Keyed(source, key)
  {
    Keyed(read, key) && forall i :: 0 <= i < |source| ==> source[i][key] in InsertAll(dest, read, key)
  }

  lemma {:induction false} SubsetIsKeyed(read: seq<Row>, source: seq<Row>, key: nat)
    requires Keyed(source, key) && multiset(read) <= multiset(source)
    ensures Keyed(read, key)
  {
    forall i | 0 <= i < |read| ensures key < |read[i]| {
      assert read[i] in multiset(read);
      assert read[i] in source;
    }
  }

  lemma {:induction false} FullReadIsPermutation(read: seq<Row>, source: seq<Row>)
    requires multiset(read) <= multiset(source) && |read| == |source|
    ensures multiset(read) == multiset(source)
  {
    var missing := multiset(source) - multiset(read);
    assert multiset(source) == multiset(read) + missing;
    assert |multiset(source)| == |multiset(read)| + |missing|;
    assert |multiset(read)| == |read| && |multiset(source)| == |source|;
    assert missing == multiset{};
  }

  /** One completed call copies a table of new rows for certain exactly when the table has at most
      5000 rows. */
  lemma {:induction false} OneCallSufficesIff(dest: Rows, source: seq<Row>, key: nat)
    requires UniqueKeys(source, key)
    requires forall i :: 0 <= i < |source| ==> source[i][key] !in dest
    ensures EveryReadSuffices(dest, source, key) <==> |source| <= 5000
  {
    if |source| <= READ_LIMIT {
      forall read | IsRead(read, source) ensures CopiesAll(dest, read, source, key) {
        FullReadIsPermutation(read, source);
        ReadIsKeyed(Attempt(read, 0), source, key);
        SubsetIsKeyed(read, source, key);
        CleanCopyIsMerge(dest, source, key);
        InsertAllStaysBetween(dest, dest, RowSet(source), read, key);
      }
    } else {
      var read := source[..READ_LIMIT];
      assert source == read + source[READ_LIMIT..];
      assert multiset(source) == multiset(read) + multiset(source[READ_LIMIT..]);
      assert IsRead(read, source);
      UnreadKeyStaysOut(dest, read, key, source[READ_LIMIT][key]);
      assert !CopiesAll(dest, read, source, key);
    }
  }

  lemma {:induction false} UnreadKeyStaysOut(dest: Rows, rows: seq<Row>, key: nat, k: Value)
    requires Keyed(rows, key) && k !in dest && forall i :: 0 <= i < |rows| ==> rows[i][key] != k
    ensures k !in InsertAll(dest, rows, key)
    decreases |rows|
  {
    if rows != [] {
      UnreadKeyStaysOut(Put(dest, rows[0], key), rows[1..], key, k);
    }
  }

  // -- The bind limit ------------------------------------------------------------------------------------

  function BatchEnd(rows: nat, from: nat): nat {
    if from + BATCH < rows then from + BATCH else rows
  }

  /** The largest batch whose arguments one statement can carry. */
  function Capacity(columns: nat): nat
    requires columns > 0
  {
    BIND_LIMIT / columns
  }

  lemma {:induction false} CapacityIff(batch: nat, columns: nat)
    requires columns > 0
    ensures batch <= Capacity(columns) <==> batch * columns <= BIND_LIMIT
  {
    var q, r := BIND_LIMIT / columns, BIND_LIMIT % columns;
    assert BIND_LIMIT == q * columns + r && r < columns;
    if batch <= q {
      assert batch * columns <= q * columns;
    } else {
      assert batch * columns >= (q + 1) * columns == q * columns + columns;
    }
  }

  /** A copy of so many rows never needs too many arguments in one statement. */
  predicate FitsBindLimit(rows: nat, columns: nat) {
    forall from :: 0 <= from < rows && from % BATCH == 0 ==> (BatchEnd(rows, from) - from) * columns <= BIND_LIMIT
  }

  lemma {:induction false} FitsBindLimitIff(rows: nat, columns: nat)
    requires rows >= 100
    ensures FitsBindLimit(rows, columns) <==> columns <= 655
  {
    if columns <= 655 {
      forall from | 0 <= from < rows && from % BATCH == 0
        ensures (BatchEnd(rows, from) - from) * columns <= BIND_LIMIT
      {
        ProductBound(BatchEnd(rows, from) - from, columns);
      }
    } else {
      assert BatchEnd(rows, 0) - 0 == 100 && 0 % BATCH == 0;
    }
  }

  lemma {:induction false} ProductBound(m: nat, columns: nat)
    requires m <= 100
    ensures m * columns <= 100 * columns
  {}

  // -- The sequence bump -----------------------------------------------------------------------------------

  /** `coalesce(max(id), 0)` */
  ghost predicate IsTopId(top: int, rows: Rows) {
    && (forall n :: Number(n) in rows ==> n <= top)
    && (if exists n :: Number(n) in rows then Number(top) in rows else top == 0)
  }

  // -- The handler's table loop ------------------------------------------------------------------------------

  datatype TableResult = NoSharedColumns | TableCopied(sourceRows: nat, copied: nat) | TableFailed

  /** How many rows a copy stores when a statement carries at most `capacity` rows and the one that
      starts at row `fault` fails. */
  function StoredRows(rows: nat, capacity: nat, fault: nat): (done: nat)
    ensures done <= rows
  {
    if BatchEnd(rows, 0) > capacity then 0 else if fault < rows then fault else rows
  }

  class Destination {
    var rows: Rows
    var nextId: int

    constructor (rows: Rows, nextId: int)
      ensures this.rows == rows && this.nextId == nextId
    {
      this.rows, this.nextId := rows, nextId;
    }

    /** One statement: stored as a whole, or refused and nothing stored. */
    method Execute(text: seq<Token>, arguments: seq<Value>, key: nat, faulty: bool) returns (ok: bool, count: nat)
      requires ProposedRows(text, arguments).Some? ==> Keyed(ProposedRows(text, arguments).value, key)
      modifies this`rows
      ensures ok <==> !faulty && ProposedRows(text, arguments).Some?
      ensures !ok ==> rows == old(rows) && count == 0
      ensures ok ==> var proposed := ProposedRows(text, arguments).value;
                     rows == InsertAll(old(rows), proposed, key) && count == InsertCount(old(rows), proposed, key)
    {
      ok, count := false, 0;
      var proposed := ProposedRows(text, arguments);
      if proposed.Some? && !faulty {
        ok, count := true, InsertCount(rows, proposed.value, key);
        rows := InsertAll(rows, proposed.value, key);
      }
    }

    method PushArguments(batch: seq<Row>, columns: nat) returns (params: seq<Value>)
      requires HasWidth(batch, columns)
      ensures params == Arguments(batch)
    {
      params := [];
      for r := 0 to |batch|
        invariant params + Arguments(batch[r..]) == Arguments(batch)
      {
        ghost var before := params;
        for c := 0 to columns
          invariant params == before + batch[r][..c]
        {
          params := params + [batch[r][c]];
        }
        assert batch[r..][0] == batch[r] && batch[r..][1..] == batch[r + 1..];
        assert params == before + batch[r];
        assert before + Arguments(batch[r..]) == params + Arguments(batch[r + 1..]);
      }
    }

    /** Copies what was read, a hundred rows a statement; the statement that starts at row `fault`
        fails, if the copy gets there. */
    method CopyTable(read: seq<Row>, columns: nat, key: nat, serial: bool, fault: nat) returns (result: TableResult)
      requires HasWidth(read, columns) && (columns > 0 ==> key < columns)
      requires fault % BATCH == 0
      modifies this
      ensures columns == 0 ==> result == NoSharedColumns && rows == old(rows) && nextId == old(nextId)
      ensures columns > 0 ==>
                var done := StoredRows(|read|, Capacity(columns), fault);
                && Keyed(read, key)
                && rows == InsertAll(old(rows), read[..done], key)
                && result == (if done == |read| then TableCopied(|read|, InsertCount(old(rows), read, key))
                              else TableFailed)
                && (done == |read| > 0 && serial && old(nextId) >= 1 ==>
                      forall n :: Number(n) in rows ==> n < nextId)
                && (done != |read| || |read| == 0 || !serial ==> nextId == old(nextId))
    {
      if columns == 0 {
        return NoSharedColumns;
      }
      var ok, copied := CopyBatches(read, columns, key, fault, Capacity(columns));
      assert read[..|read|] == read;
      if !ok {
        return TableFailed;
      }
      if |read| > 0 && serial {
        BumpSequence();
      }
      result := TableCopied(|read|, copied);
    }

    method SendBatch(batch: seq<Row>, columns: nat, key: nat, faulty: bool) returns (ok: bool, count: nat)
      requires HasWidth(batch, columns) && key < columns && batch != []
      modifies this`rows
      ensures Keyed(batch, key)
      ensures ok <==> !faulty && |batch| <= Capacity(columns)
      ensures ok ==> rows == InsertAll(old(rows), batch, key) && count == InsertCount(old(rows), batch, key)
      ensures !ok ==> rows == old(rows)
    {
      var params := PushArguments(batch, columns);
      StatementCarriesBatch(batch, columns);
      ArgumentCount(batch, columns);
      CapacityIff(|batch|, columns);
      ok, count := Execute(Placeholders(|batch|, columns), params, key, faulty);
    }

    method CopyBatches(read: seq<Row>, columns: nat, key: nat, fault: nat, ghost capacity: nat)
      returns (ok: bool, copied: nat)
      requires HasWidth(read, columns) && key < columns
      requires capacity == Capacity(columns) && fault % BATCH == 0
      modifies this`rows
      ensures var done := StoredRows(|read|, capacity, fault);
              && Keyed(read, key)
              && rows == InsertAll(old(rows), read[..done], key)
              && ok == (done == |read|)
              && (ok ==> copied == InsertCount(old(rows), read[..done], key))
    {
      var i := 0;
      copied := 0;
      while i < |read|
        invariant i % BATCH == 0
        invariant StoredRows(|read|, capacity, fault) >= UpTo(|read|, i)
        invariant rows == InsertAll(old(rows), read[..UpTo(|read|, i)], key)
        invariant copied == InsertCount(old(rows), read[..UpTo(|read|, i)], key)
      {
        var end := BatchEnd(|read|, i);
        var batch := read[i..end];
        NextBatchIsStoredIff(|read|, i, capacity, fault);
        var count;
        ok, count := SendBatch(batch, columns, key, i == fault);
        if !ok {
          return;
        }
        CopyStep(old(rows), read, i, end, key);
        copied, i := copied + count, i + BATCH;
      }
      ok := true;
    }

    /** `setval(..., coalesce(max(id), 0) + 1, false)`; a value below 1 is out of range for the
        sequence, and that error is ignored. */
    method BumpSequence()
      modifies this`nextId
      ensures old(nextId) >= 1 ==> nextId >= 1 && forall n :: Number(n) in rows ==> n < nextId
      ensures exists top :: IsTopId(top, rows) && nextId == if top + 1 >= 1 then top + 1 else old(nextId)
      ensures (exists n :: n >= 0 && Number(n) in rows) ==>
                Number(nextId - 1) in rows && forall n :: Number(n) in rows ==> n < nextId
      ensures (forall n :: Number(n) !in rows) ==> nextId == 1
      ensures (exists n :: Number(n) in rows) && (forall n :: Number(n) in rows ==> n < 0) ==> nextId == old(nextId)
    {
      var top := TopId();
      if top + 1 >= 1 {
        nextId := top + 1;
      }
      assert IsTopId(top, rows);
    }

    method TopId() returns (top: int)
      ensures IsTopId(top, rows)
    {
      var rest, seen := rows.Keys, false;
      top := 0;
      while rest != {}
        invariant rest <= rows.Keys
        invariant seen ==> Number(top) in rows
        invariant !seen ==> top == 0
        invariant forall n :: Number(n) in rows && Number(n) !in rest ==> seen && n <= top
        decreases |rest|
      {
        var k :| k in rest;
        if k.Number? && (!seen || k.n > top) {
          top, seen := k.n, true;
        }
        rest := rest - {k};
      }
    }
  }

  function UpTo(n: nat, i: nat): (r: nat)
    ensures r <= n
  {
    if i < n then i else n
  }

  lemma {:induction false} NextBatchIsStoredIff(rows: nat, from: nat, capacity: nat, fault: nat)
    requires from < rows && from % BATCH == 0 && fault % BATCH == 0
    requires StoredRows(rows, capacity, fault) >= from
    ensures var end := BatchEnd(rows, from);
            if from == fault || end - from > capacity
            then StoredRows(rows, capacity, fault) == from
            else StoredRows(rows, capacity, fault) >= end
  {}

  lemma {:induction false} CountAppends(dest: Rows, a: seq<Row>, b: seq<Row>, key: nat)
    requires Keyed(a, key) && Keyed(b, key)
    ensures InsertCount(dest, a + b, key) == InsertCount(dest, a, key) + InsertCount(InsertAll(dest, a, key), b, key)
  {
    InsertAllAppends(dest, a, b, key);
    CountIsGrowth(dest, a, key);
    CountIsGrowth(dest, a + b, key);
    CountIsGrowth(InsertAll(dest, a, key), b, key);
  }

  lemma {:induction false} CopyStep(dest: Rows, read: seq<Row>, i: nat, end: nat, key: nat)
    requires Keyed(read, key) && i <= end <= |read|
    ensures var before := InsertAll(dest, read[..i], key);
            && InsertAll(dest, read[..end], key) == InsertAll(before, read[i..end], key)
            && InsertCount(dest, read[..end], key)
               == InsertCount(dest, read[..i], key) + InsertCount(before, read[i..end], key)
  {
    assert read[..end] == read[..i] + read[i..end];
    InsertAllAppends(dest, read[..i], read[i..end], key);
    CountAppends(dest, read[..i], read[i..end], key);
  }
}
