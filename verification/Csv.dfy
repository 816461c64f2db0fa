/** A CSV reader that walks an index, and the files it reads back: those of any printer that follows
    section 2 of RFC 4180. */
module Csv {

  type Text = seq<char>
  type Record = seq<Text>

  const BOM: char := '\U{FEFF}'

  // -- The reader -----------------------------------------------------------------------------

  /** The records that the rest of the input completes, given what the reader holds. */
  function Scan(input: Text, quoted: bool, cell: Text, record: Record): seq<Record>
    decreases |input|
  {
    if input == [] then []
    else if input[0] == '"' then
      if quoted && |input| > 1 && input[1] == '"' then Scan(input[2..], quoted, cell + ['"'], record)
      else Scan(input[1..], !quoted, cell, record)
    else if input[0] == ',' && !quoted then Scan(input[1..], quoted, [], record + [cell])
    else if input[0] == '\r' && |input| > 1 && input[1] == '\n' && !quoted then
      [record + [cell]] + Scan(input[2..], quoted, [], [])
    else Scan(input[1..], quoted, cell + [input[0]], record)
  }

  function WithoutBom(text: Text): Text {
    if text != [] && text[0] == BOM then text[1..] else text
  }

  function Read(text: Text): seq<Record> {
    Scan(WithoutBom(text), false, [], [])
  }

  method CsvRecords(text: Text) returns (records: seq<Record>)
    ensures records == Read(text)
  {
    var input := WithoutBom(text);
    var record: Record, cell: Text, quoted := [], [], false;
    records := [];
    var i := 0;
    assert input[0..] == input;
    while i < |input|
      invariant i <= |input|
      invariant records + Scan(input[i..], quoted, cell, record) == Scan(input, false, [], [])
    {
      var ch := input[i];
      var rest := input[i..];
      assert rest[0] == ch && rest[1..] == input[i + 1..];
      assert i + 1 < |input| ==> rest[1] == input[i + 1] && rest[2..] == input[i + 2..];
      if ch == '"' {
        if quoted && i + 1 < |input| && input[i + 1] == '"' {
          cell := cell + ['"'];
          i := i + 1;
        } else {
          quoted := !quoted;
        }
      } else if ch == ',' && !quoted {
        record := record + [cell];
        cell := [];
      } else if ch == '\r' && i + 1 < |input| && input[i + 1] == '\n' && !quoted {
        record := record + [cell];
        records := records + [record];
        record, cell := [], [];
        i := i + 1;
      } else {
        cell := cell + [ch];
      }
      i := i + 1;
    }
  }

  // -- Printers ------------------------------------------------------------------------------------

  /** A field as some printer writes it: quoted or bare. */
  datatype Field = Field(text: Text, quoted: bool)

  /** No quote, no comma, no line end: a CR or an LF alone ends no line. */
  predicate Bare(text: Text) {
    && (forall i :: 0 <= i < |text| ==> text[i] != '"' && text[i] != ',')
    && (forall i :: 0 < i < |text| && text[i] == '\n' ==> text[i - 1] != '\r')
  }

  /** Such a field may be written bare; the standard, which quotes any CR or LF, asks for more. */
  predicate Allowed(f: Field) {
    f.quoted || Bare(f.text)
  }

  function Doubled(text: Text): Text {
    if text == [] then []
    else (if text[0] == '"' then ['"', '"'] else [text[0]]) + Doubled(text[1..])
  }

  function PrintField(f: Field): Text {
    if f.quoted then ['"'] + Doubled(f.text) + ['"'] else f.text
  }

  function PrintFields(fields: seq<Field>): Text {
    if fields == [] then []
    else if |fields| == 1 then PrintField(fields[0])
    else PrintField(fields[0]) + [','] + PrintFields(fields[1..])
  }

  function PrintRecord(fields: seq<Field>): Text {
    PrintFields(fields) + ['\r', '\n']
  }

  function PrintAll(records: seq<seq<Field>>): Text {
    if records == [] then [] else PrintRecord(records[0]) + PrintAll(records[1..])
  }

  /** One leading byte order mark. */
  function Print(records: seq<seq<Field>>): Text {
    [BOM] + PrintAll(records)
  }

  function Texts(fields: seq<Field>): Record {
    if fields == [] then [] else [fields[0].text] + Texts(fields[1..])
  }

  function AllTexts(records: seq<seq<Field>>): seq<Record> {
    if records == [] then [] else [Texts(records[0])] + AllTexts(records[1..])
  }

  predicate AllAllowed(fields: seq<Field>) {
    forall i :: 0 <= i < |fields| ==> Allowed(fields[i])
  }

  // -- Reading what was printed ------------------------------------------------------------------------

  lemma {:induction false} ScanQuoted(text: Text, rest: Text, cell: Text, record: Record)
    requires rest != [] && rest[0] != '"'
    ensures Scan(Doubled(text) + ['"'] + rest, true, cell, record) == Scan(rest, false, cell + text, record)
    decreases |text|
  {
    var input := Doubled(text) + ['"'] + rest;
    if text == [] {
      assert input == ['"'] + rest && input[1..] == rest;
      assert cell + text == cell;
    } else {
      var tail := Doubled(text[1..]) + ['"'] + rest;
      ScanQuoted(text[1..], rest, cell + [text[0]], record);
      assert cell + [text[0]] + text[1..] == cell + text;
      if text[0] == '"' {
        assert input == ['"', '"'] + tail && input[2..] == tail;
      } else {
        assert input == [text[0]] + tail && input[1..] == tail;
      }
    }
  }

  lemma {:induction false} ScanBare(text: Text, rest: Text, cell: Text, record: Record)
    requires Bare(text) && rest != [] && rest[0] != '\n'
    ensures Scan(text + rest, false, cell, record) == Scan(rest, false, cell + text, record)
    decreases |text|
  {
    if text == [] {
      assert text + rest == rest && cell + text == cell;
    } else {
      BareTail(text);
      ScanBare(text[1..], rest, cell + [text[0]], record);
      assert (text + rest)[1..] == text[1..] + rest;
      assert cell + [text[0]] + text[1..] == cell + text;
      assert (text + rest)[0] == text[0] && (text + rest)[1] == if |text| > 1 then text[1] else rest[0];
    }
  }

  lemma {:induction false} BareTail(text: Text)
    requires Bare(text) && text != []
    ensures Bare(text[1..])
    ensures text[0] == '\r' && |text| > 1 ==> text[1] != '\n'
  {}

  lemma {:induction false} ScanField(f: Field, rest: Text, record: Record)
    requires Allowed(f) && rest != [] && rest[0] != '"' && rest[0] != '\n'
    ensures Scan(PrintField(f) + rest, false, [], record) == Scan(rest, false, f.text, record)
  {
    if f.quoted {
      ScanQuoted(f.text, rest, [], record);
      var inner := Doubled(f.text) + ['"'] + rest;
      assert PrintField(f) + rest == ['"'] + inner;
      assert (['"'] + inner)[1..] == inner;
      assert [] + f.text == f.text;
    } else {
      ScanBare(f.text, rest, [], record);
      assert [] + f.text == f.text;
    }
  }

  lemma {:induction false} ScanLineEnd(rest: Text, cell: Text, record: Record)
    ensures Scan(['\r', '\n'] + rest, false, cell, record) == [record + [cell]] + Scan(rest, false, [], [])
  {
    assert (['\r', '\n'] + rest)[2..] == rest;
  }

  lemma {:induction false} ScanComma(rest: Text, cell: Text, record: Record)
    ensures Scan([','] + rest, false, cell, record) == Scan(rest, false, [], record + [cell])
  {
    assert ([','] + rest)[1..] == rest;
  }

  lemma {:induction false} ScanLastField(f: Field, rest: Text, record: Record)
    requires Allowed(f)
    ensures Scan(PrintRecord([f]) + rest, false, [], record) == [record + [f.text]] + Scan(rest, false, [], [])
  {
    var end := ['\r', '\n'] + rest;
    assert PrintRecord([f]) + rest == PrintField(f) + end;
    ScanField(f, end, record);
    ScanLineEnd(rest, f.text, record);
  }

  lemma {:induction false} ScanFirstField(fields: seq<Field>, rest: Text, record: Record)
    requires |fields| > 1 && Allowed(fields[0])
    ensures Scan(PrintRecord(fields) + rest, false, [], record)
         == Scan(PrintRecord(fields[1..]) + rest, false, [], record + [fields[0].text])
  {
    var more := PrintRecord(fields[1..]) + rest;
    var tail := [','] + more;
    assert PrintRecord(fields) + rest == PrintField(fields[0]) + tail;
    ScanField(fields[0], tail, record);
    ScanComma(more, fields[0].text, record);
  }

  /** The fields of a record and its line end give one record; a record without fields reads as one
      with a single empty field. */
  lemma {:induction false} ScanRecord(fields: seq<Field>, rest: Text, record: Record)
    requires AllAllowed(fields)
    ensures Scan(PrintRecord(fields) + rest, false, [], record)
         == [record + (if fields == [] then [[]] else Texts(fields))] + Scan(rest, false, [], [])
    decreases |fields|
  {
    if fields == [] {
      assert PrintRecord(fields) == ['\r', '\n'];
      ScanLineEnd(rest, [], record);
    } else if |fields| == 1 {
      assert fields == [fields[0]] && Texts(fields) == [fields[0].text];
      ScanLastField(fields[0], rest, record);
    } else {
      ScanFirstField(fields, rest, record);
      ScanRecord(fields[1..], rest, record + [fields[0].text]);
      assert record + [fields[0].text] + Texts(fields[1..]) == record + Texts(fields);
    }
  }

  predicate Printable(records: seq<seq<Field>>) {
    forall i :: 0 <= i < |records| ==> AllAllowed(records[i])
  }

  predicate NoEmptyRecord(records: seq<seq<Field>>) {
    forall i :: 0 <= i < |records| ==> records[i] != []
  }

  lemma {:induction false} ScanAllIff(records: seq<seq<Field>>)
    requires Printable(records)
    ensures |Scan(PrintAll(records), false, [], [])| == |records|
    ensures Scan(PrintAll(records), false, [], []) == AllTexts(records) <==> NoEmptyRecord(records)
    decreases |records|
  {
    if records != [] {
      ScanAllIff(records[1..]);
      ScanRecord(records[0], PrintAll(records[1..]), []);
      var first := if records[0] == [] then [[]] else Texts(records[0]);
      assert [] + first == first;
      assert NoEmptyRecord(records) <==> records[0] != [] && NoEmptyRecord(records[1..]);
      var got := Scan(PrintAll(records), false, [], []);
      assert got[0] == first && got[1..] == Scan(PrintAll(records[1..]), false, [], []);
      assert AllTexts(records)[0] == Texts(records[0]) && AllTexts(records)[1..] == AllTexts(records[1..]);
      assert got == [got[0]] + got[1..];
    }
  }

  /** The reader inverts every such printer exactly on lists of non-empty records. */
  lemma {:induction false} ReadInvertsPrintIff(records: seq<seq<Field>>)
    requires Printable(records)
    ensures Read(Print(records)) == AllTexts(records) <==> NoEmptyRecord(records)
  {
    assert Print(records)[1..] == PrintAll(records);
    ScanAllIff(records);
  }
}
