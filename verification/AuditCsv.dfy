/** The audit export: cells that a spreadsheet would run are escaped, every cell is quoted, and a file
    that would be too long is not produced at all. */
module AuditCsv {
  import opened Common
  import opened Csv

  const MAX_ROWS: nat := 50000
  const MAX_BYTES: nat := 16777216
  const COLUMNS: nat := 12

  /** `\s` and the byte order mark, which `\s` includes. */
  predicate White(c: char) {
    || '\t' <= c <= '\r' || c == ' ' || c == '\U{00A0}' || c == '\U{1680}'
    || '\U{2000}' <= c <= '\U{200A}' || c == '\U{2028}' || c == '\U{2029}' || c == '\U{202F}'
    || c == '\U{205F}' || c == '\U{3000}' || c == BOM
  }

  predicate Sign(c: char) {
    c == '=' || c == '+' || c == '-' || c == '@'
  }

  /** A sign after any white space. */
  predicate StartsFormula(text: Text) {
    text != [] && (Sign(text[0]) || (White(text[0]) && StartsFormula(text[1..])))
  }

  /** What a spreadsheet might run, or might strip to something it runs. */
  predicate Dangerous(text: Text) {
    StartsFormula(text) || (text != [] && (text[0] == '\t' || text[0] == '\r' || text[0] == '\n'))
  }

  function Escaped(text: Text): (r: Text)
    ensures !Dangerous(r)
    ensures r == text || r == ['\''] + text
  {
    if Dangerous(text) then ['\''] + text else text
  }

  function EscapedRecord(row: Record): Record {
    if row == [] then [] else [Escaped(row[0])] + EscapedRecord(row[1..])
  }

  function EscapedRecords(rows: seq<Record>): seq<Record> {
    if rows == [] then [] else [EscapedRecord(rows[0])] + EscapedRecords(rows[1..])
  }

  // -- Escaping --------------------------------------------------------------------------------------

  /** Escaping twice is escaping once. */
  lemma {:induction false} EscapingIsIdempotent(text: Text)
    ensures Escaped(Escaped(text)) == Escaped(text)
  {
    assert !Dangerous(Escaped(text));
  }

  /** Two cells export alike exactly when they are equal or one is the other, dangerous, with an
      apostrophe already in front: the apostrophe is not itself escaped. */
  lemma {:induction false} EscapedAlikeIff(a: Text, b: Text)
    ensures Escaped(a) == Escaped(b)
       <==> a == b || (Dangerous(a) && b == ['\''] + a) || (Dangerous(b) && a == ['\''] + b)
  {
    assert (['\''] + a)[1..] == a && (['\''] + b)[1..] == b;
    assert !StartsFormula(['\''] + a) && !StartsFormula(['\''] + b);
    assert (['\''] + a)[0] == '\'' && (['\''] + b)[0] == '\'';
  }

  // -- The file ------------------------------------------------------------------------------------------

  /** Every cell quoted. */
  function Fields(row: Record): (r: seq<Field>)
    ensures |r| == |row|
  {
    if row == [] then [] else [Field(Escaped(row[0]), true)] + Fields(row[1..])
  }

  function AllFields(rows: seq<Record>): (r: seq<seq<Field>>)
    ensures |r| == |rows| && forall i :: 0 <= i < |rows| ==> r[i] == Fields(rows[i])
  {
    if rows == [] then [] else [Fields(rows[0])] + AllFields(rows[1..])
  }

  function Line(row: Record): Text {
    PrintRecord(Fields(row))
  }

  /** The lines of the first n rows. */
  function Lines(rows: seq<Record>, n: nat): Text
    requires n <= |rows|
  {
    if n == 0 then [] else Lines(rows, n - 1) + Line(rows[n - 1])
  }

  /** The length of a text in bytes, as the encoder counts it. */
  type Bytes = Text -> nat

  function HeaderLine(header: Record): Text {
    [BOM] + Line(header)
  }

  /** The bytes of the header and the first n rows. */
  function SizeOf(header: Record, rows: seq<Record>, n: nat, bytes: Bytes): nat
    requires n <= |rows|
  {
    bytes(HeaderLine(header)) + Sum(LineSizes(rows, bytes), n)
  }

  function LineSizes(rows: seq<Record>, bytes: Bytes): (r: seq<nat>)
    ensures |r| == |rows| && forall i :: 0 <= i < |rows| ==> r[i] == bytes(Line(rows[i]))
  {
    if rows == [] then [] else LineSizes(rows[..|rows| - 1], bytes) + [bytes(Line(rows[|rows| - 1]))]
  }

  function Sum(sizes: seq<nat>, n: nat): nat
    requires n <= |sizes|
  {
    if n == 0 then 0 else Sum(sizes, n - 1) + sizes[n - 1]
  }

  /** All or nothing: the header and every row, unless there are too many rows or too many bytes. A
      header alone is never too long. */
  function Export(header: Record, rows: seq<Record>, bytes: Bytes): Option<Text> {
    if |rows| > MAX_ROWS || (rows != [] && SizeOf(header, rows, |rows|, bytes) > MAX_BYTES) then None
    else Some(HeaderLine(header) + Lines(rows, |rows|))
  }

  method AuditExport(header: Record, rows: seq<Record>, bytes: Bytes) returns (r: Option<Text>)
    ensures r == Export(header, rows, bytes)
  {
    if |rows| > MAX_ROWS {
      return None;
    }
    var file := HeaderLine(header);
    var size := bytes(file);
    for i := 0 to |rows|
      invariant size == SizeOf(header, rows, i, bytes)
      invariant i > 0 ==> size <= MAX_BYTES
      invariant file == HeaderLine(header) + Lines(rows, i)
    {
      var line := Line(rows[i]);
      SizeOfNext(header, rows, i, bytes);
      size := size + bytes(line);
      if size > MAX_BYTES {
        SumGrows(LineSizes(rows, bytes), i + 1, |rows|);
        return None;
      }
      LineAdded(header, rows, i);
      file := file + line;
    }
    return Some(file);
  }

  lemma {:induction false} LineAdded(header: Record, rows: seq<Record>, i: nat)
    requires i < |rows|
    ensures HeaderLine(header) + Lines(rows, i) + Line(rows[i]) == HeaderLine(header) + Lines(rows, i + 1)
  {
    var a, b, c := HeaderLine(header), Lines(rows, i), Line(rows[i]);
    assert a + b + c == a + (b + c);
  }

  lemma {:induction false} SizeOfNext(header: Record, rows: seq<Record>, n: nat, bytes: Bytes)
    requires n < |rows|
    ensures SizeOf(header, rows, n + 1, bytes) == SizeOf(header, rows, n, bytes) + bytes(Line(rows[n]))
  {}

  lemma {:induction false} SumGrows(sizes: seq<nat>, m: nat, n: nat)
    requires m <= n <= |sizes|
    ensures Sum(sizes, m) <= Sum(sizes, n)
    decreases n
  {
    if m < n {
      SumGrows(sizes, m, n - 1);
    }
  }

  // -- Reading the export back ---------------------------------------------------------------------------

  lemma {:induction false} PrintAllAppends(a: seq<seq<Field>>, b: seq<seq<Field>>)
    ensures PrintAll(a + b) == PrintAll(a) + PrintAll(b)
    decreases |a|
  {
    if a == [] {
      assert a + b == b;
    } else {
      PrintAllAppends(a[1..], b);
      assert (a + b)[1..] == a[1..] + b;
    }
  }

  lemma {:induction false} LinesArePrinted(rows: seq<Record>, n: nat)
    requires n <= |rows|
    ensures Lines(rows, n) == PrintAll(AllFields(rows)[..n])
    decreases n
  {
    if n > 0 {
      LinesArePrinted(rows, n - 1);
      LastIsPrinted(AllFields(rows), n);
    }
  }

  lemma {:induction false} LastIsPrinted(records: seq<seq<Field>>, n: nat)
    requires 0 < n <= |records|
    ensures PrintAll(records[..n]) == PrintAll(records[..n - 1]) + PrintRecord(records[n - 1])
  {
    PrintAllAppends(records[..n - 1], [records[n - 1]]);
    assert records[..n] == records[..n - 1] + [records[n - 1]];
    assert PrintAll([records[n - 1]]) == PrintRecord(records[n - 1]) + PrintAll([]);
  }

  lemma {:induction false} FieldsAreAllowed(row: Record)
    ensures AllAllowed(Fields(row)) && Texts(Fields(row)) == EscapedRecord(row)
    decreases |row|
  {
    if row != [] {
      FieldsAreAllowed(row[1..]);
    }
  }

  lemma {:induction false} AllTextsAreEscaped(rows: seq<Record>)
    ensures Printable(AllFields(rows)) && AllTexts(AllFields(rows)) == EscapedRecords(rows)
    decreases |rows|
  {
    if rows != [] {
      AllTextsAreEscaped(rows[1..]);
      FieldsAreAllowed(rows[0]);
      forall i | 0 <= i < |rows| ensures AllAllowed(AllFields(rows)[i]) {
        FieldsAreAllowed(rows[i]);
      }
    }
  }

  lemma {:induction false} ExportIsPrinted(header: Record, rows: seq<Record>)
    ensures HeaderLine(header) + Lines(rows, |rows|) == Print(AllFields([header] + rows))
  {
    var all := [header] + rows;
    assert all[1..] == rows;
    LinesArePrinted(rows, |rows|);
    assert AllFields(rows)[..|rows|] == AllFields(rows);
    var first, more := Line(header), PrintAll(AllFields(rows));
    assert AllFields(all)[1..] == AllFields(rows) && AllFields(all)[0] == Fields(header);
    assert PrintAll(AllFields(all)) == first + more;
    assert [BOM] + first + more == [BOM] + (first + more);
  }

  /** What the reader gets from an export: the header and every row, in order, cell by cell either the
      recorded text or that text with one apostrophe in front, and never one a spreadsheet would run. */
  lemma {:induction false} ExportReadsBack(header: Record, rows: seq<Record>, bytes: Bytes)
    requires Export(header, rows, bytes).Some?
    requires |header| == COLUMNS && forall i :: 0 <= i < |rows| ==> |rows[i]| == COLUMNS
    ensures Read(Export(header, rows, bytes).value) == [EscapedRecord(header)] + EscapedRecords(rows)
  {
    var all := [header] + rows;
    assert all[0] == header && all[1..] == rows;
    ExportIsPrinted(header, rows);
    AllTextsAreEscaped(all);
    forall i | 0 <= i < |all| ensures AllFields(all)[i] != [] {
      assert AllFields(all)[i] == Fields(all[i]);
    }
    ReadInvertsPrintIff(AllFields(all));
  }

  /** Nothing is exported exactly when the rows or their bytes are too many. */
  lemma {:induction false} ExportFailsIff(header: Record, rows: seq<Record>, bytes: Bytes)
    ensures Export(header, rows, bytes).None?
       <==> |rows| > MAX_ROWS || exists n :: 0 < n <= |rows| && SizeOf(header, rows, n, bytes) > MAX_BYTES
  {
    if n :| 0 < n <= |rows| && SizeOf(header, rows, n, bytes) > MAX_BYTES {
      SumGrows(LineSizes(rows, bytes), n, |rows|);
    }
  }

  // -- The export cell by cell --------------------------------------------------------------------------------

  /** White space as the pattern of the escape has it. */
  const WHITE: Text :=
    "\t\n\U{000B}\U{000C}\r \U{00A0}\U{1680}\U{2000}\U{2001}\U{2002}\U{2003}\U{2004}\U{2005}\U{2006}\U{2007}\U{2008}\U{2009}\U{200A}\U{2028}\U{2029}\U{202F}\U{205F}\U{3000}\U{FEFF}"

  predicate WhiteUpTo(text: Text, i: nat)
    requires i <= |text|
  {
    forall j :: 0 <= j < i ==> text[j] in WHITE
  }

  lemma {:induction false} WhiteIsListed(c: char)
    ensures White(c) <==> c in WHITE
  {
    var w := WHITE;
    assert w[0] == '\t' && w[1] == '\n' && w[2] == '\U{000B}' && w[3] == '\U{000C}' && w[4] == '\r' && w[5] == ' ';
    assert w[6] == '\U{00A0}' && w[7] == '\U{1680}' && w[8] == '\U{2000}' && w[9] == '\U{2001}' && w[10] == '\U{2002}';
    assert w[11] == '\U{2003}' && w[12] == '\U{2004}' && w[13] == '\U{2005}' && w[14] == '\U{2006}' && w[15] == '\U{2007}';
    assert w[16] == '\U{2008}' && w[17] == '\U{2009}' && w[18] == '\U{200A}' && w[19] == '\U{2028}' && w[20] == '\U{2029}';
    assert w[21] == '\U{202F}' && w[22] == '\U{205F}' && w[23] == '\U{3000}' && w[24] == '\U{FEFF}';
  }

  /** White space, then one of the four signs, then anything. */
  predicate IsFormula(text: Text) {
    exists i :: 0 <= i < |text| && text[i] in "=+-@" && WhiteUpTo(text, i)
  }

  lemma {:induction false} StartsFormulaIff(text: Text)
    ensures StartsFormula(text) <==> IsFormula(text)
    decreases |text|
  {
    if text != [] {
      StartsFormulaIff(text[1..]);
      WhiteIsListed(text[0]);
      SignIsListed(text[0]);
      assert forall j :: 0 < j < |text| ==> text[j] == text[1..][j - 1];
      if IsFormula(text[1..]) && text[0] in WHITE {
        var i :| 0 <= i < |text[1..]| && text[1..][i] in "=+-@" && WhiteUpTo(text[1..], i);
        assert text[i + 1] in "=+-@" && WhiteUpTo(text, i + 1);
      }
      if IsFormula(text) {
        var i :| 0 <= i < |text| && text[i] in "=+-@" && WhiteUpTo(text, i);
        if i > 0 {
          forall j | 0 <= j < i - 1 ensures text[1..][j] in WHITE {
            assert text[j + 1] in WHITE;
          }
          assert text[1..][i - 1] in "=+-@" && WhiteUpTo(text[1..], i - 1);
        }
      }
      if Sign(text[0]) {
        assert text[0] in "=+-@" && WhiteUpTo(text, 0);
      }
    }
  }

  lemma {:induction false} SignIsListed(c: char)
    ensures Sign(c) <==> c in "=+-@"
  {}

  /** A cell as it must leave: with one apostrophe in front if a spreadsheet could run it, else as it is. */
  predicate LeavesAs(text: Text, out: Text) {
    out == if IsFormula(text) || (text != [] && text[0] in "\t\r\n") then ['\''] + text else text
  }

  lemma {:induction false} EscapedLeaves(text: Text)
    ensures LeavesAs(text, Escaped(text))
  {
    StartsFormulaIff(text);
  }

  predicate RecordLeavesAs(row: Record, out: Record) {
    |out| == |row| && forall j :: 0 <= j < |row| ==> LeavesAs(row[j], out[j])
  }

  lemma {:induction false} RecordLeaves(row: Record)
    ensures RecordLeavesAs(row, EscapedRecord(row))
    decreases |row|
  {
    if row != [] {
      EscapedLeaves(row[0]);
      RecordLeaves(row[1..]);
      forall j | 0 <= j < |row| ensures LeavesAs(row[j], EscapedRecord(row)[j]) {
        assert j > 0 ==> row[j] == row[1..][j - 1] && EscapedRecord(row)[j] == EscapedRecord(row[1..])[j - 1];
      }
    }
  }

  lemma {:induction false} RecordsLeave(rows: seq<Record>)
    ensures |EscapedRecords(rows)| == |rows|
    ensures forall i :: 0 <= i < |rows| ==> RecordLeavesAs(rows[i], EscapedRecords(rows)[i])
    decreases |rows|
  {
    if rows != [] {
      RecordLeaves(rows[0]);
      RecordsLeave(rows[1..]);
      forall i | 0 <= i < |rows| ensures RecordLeavesAs(rows[i], EscapedRecords(rows)[i]) {
        assert i > 0 ==> rows[i] == rows[1..][i - 1];
      }
    }
  }

  /** The export read back, in the recorded cells themselves: every row, every cell, in order, with the
      apostrophe exactly where it is needed. */
  lemma {:induction false} ExportCells(header: Record, rows: seq<Record>, bytes: Bytes)
    requires Export(header, rows, bytes).Some?
    requires |header| == COLUMNS && forall i :: 0 <= i < |rows| ==> |rows[i]| == COLUMNS
    ensures var read := Read(Export(header, rows, bytes).value);
            && |read| == |rows| + 1 && RecordLeavesAs(header, read[0])
            && forall i :: 0 <= i < |rows| ==> RecordLeavesAs(rows[i], read[i + 1])
  {
    ExportReadsBack(header, rows, bytes);
    RecordLeaves(header);
    RecordsLeave(rows);
    var read, escaped := [EscapedRecord(header)] + EscapedRecords(rows), EscapedRecords(rows);
    forall i | 0 <= i < |rows| ensures RecordLeavesAs(rows[i], read[i + 1]) {
      assert read[i + 1] == escaped[i] && RecordLeavesAs(rows[i], escaped[i]);
    }
  }

  /** Every cell is quoted: the line is one opening quote, the cells with their quotes doubled and `","`
      between them, and one closing quote. */
  function Between(row: Record): Text
    requires row != []
  {
    Doubled(Escaped(row[0])) + if |row| == 1 then [] else ['"', ',', '"'] + Between(row[1..])
  }

  lemma {:induction false} LineQuotesCells(row: Record)
    requires row != []
    ensures Line(row) == ['"'] + Between(row) + ['"', '\r', '\n']
  {
    FieldsQuoteCells(row);
    assert ['"'] + Between(row) + ['"'] + ['\r', '\n'] == ['"'] + Between(row) + ['"', '\r', '\n'];
  }

  lemma {:induction false} QuotesJoin(a: Text, b: Text)
    ensures ['"'] + a + ['"'] + [','] + (['"'] + b + ['"']) == ['"'] + (a + (['"', ',', '"'] + b)) + ['"']
  {}

  lemma {:induction false} FieldsQuoteCells(row: Record)
    requires row != []
    ensures PrintFields(Fields(row)) == ['"'] + Between(row) + ['"']
    decreases |row|
  {
    var cell := Doubled(Escaped(row[0]));
    if |row| == 1 {
      assert Fields(row)[0] == Field(Escaped(row[0]), true);
    } else {
      FieldsQuoteCells(row[1..]);
      assert Fields(row)[0] == Field(Escaped(row[0]), true) && Fields(row)[1..] == Fields(row[1..]);
      QuotesJoin(cell, Between(row[1..]));
    }
  }

  predicate AddUp(bytes: Bytes, a: Text, b: Text) {
    bytes(a + b) == bytes(a) + bytes(b)
  }

  /** Byte counts of parts add up. */
  ghost predicate Additive(bytes: Bytes) {
    forall a, b :: AddUp(bytes, a, b)
  }

  /** The limit is on the file: nothing is exported exactly for more than 50000 rows or, with any row at
      all, for a file above 16 MiB; otherwise the file starts with a byte order mark. */
  lemma {:induction false} ExportFailsIffFileTooLong(header: Record, rows: seq<Record>, bytes: Bytes)
    requires Additive(bytes)
    ensures Export(header, rows, bytes).None?
       <==> |rows| > 50000 || (rows != [] && bytes(HeaderLine(header) + Lines(rows, |rows|)) > 16 * 1024 * 1024)
    ensures var r := Export(header, rows, bytes);
            r.Some? ==> r.value == HeaderLine(header) + Lines(rows, |rows|) && r.value[0] == '\U{FEFF}'
  {
    SizeIsBytes(header, rows, |rows|, bytes);
  }

  lemma {:induction false} BytesAdd(bytes: Bytes, a: Text, b: Text)
    requires Additive(bytes)
    ensures bytes(a + b) == bytes(a) + bytes(b)
  {
    assert AddUp(bytes, a, b);
  }

  /** The bytes of the file up to the n-th row. */
  function FileBytes(header: Record, rows: seq<Record>, n: nat, bytes: Bytes): nat
    requires n <= |rows|
  {
    bytes(HeaderLine(header) + Lines(rows, n))
  }

  lemma {:induction false} NextFileBytes(header: Record, rows: seq<Record>, n: nat, bytes: Bytes)
    requires Additive(bytes) && 0 < n <= |rows|
    ensures FileBytes(header, rows, n, bytes) - FileBytes(header, rows, n - 1, bytes)
         == SizeOf(header, rows, n, bytes) - SizeOf(header, rows, n - 1, bytes)
  {
    BytesAdd(bytes, HeaderLine(header), Lines(rows, n));
    BytesAdd(bytes, HeaderLine(header), Lines(rows, n - 1));
    BytesAdd(bytes, Lines(rows, n - 1), Line(rows[n - 1]));
    SizeOfNext(header, rows, n - 1, bytes);
  }

  lemma {:induction false} NoLines(header: Record, rows: seq<Record>, bytes: Bytes)
    ensures FileBytes(header, rows, 0, bytes) == SizeOf(header, rows, 0, bytes)
  {
    assert HeaderLine(header) + Lines(rows, 0) == HeaderLine(header);
  }

  lemma {:induction false} SizeIsBytes(header: Record, rows: seq<Record>, n: nat, bytes: Bytes)
    requires Additive(bytes) && n <= |rows|
    ensures SizeOf(header, rows, n, bytes) == FileBytes(header, rows, n, bytes)
    decreases n
  {
    if n == 0 {
      NoLines(header, rows, bytes);
    } else {
      SizeIsBytes(header, rows, n - 1, bytes);
      NextFileBytes(header, rows, n, bytes);
    }
  }
}
