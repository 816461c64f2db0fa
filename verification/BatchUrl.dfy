/** The length of a batch request's URL: the periods as JSON, percent-encoded as a query parameter. */
module BatchUrl {
  import opened BatchChunks
  import opened Common
  import opened Digits
  import opened InvoiceTotals

  /** The path and the parameter name behind the base. */
  const PATH := "/billing/invoice-totals/batch?periods="

  /** Letters, digits and four marks stand for themselves. */
  predicate Plain(c: char) {
    Digit(c) || 'a' <= c <= 'z' || 'A' <= c <= 'Z' || c == '*' || c == '-' || c == '.' || c == '_'
  }

  function Hex(n: nat): char
    requires n < 16
  {
    if n < 10 then ('0' as int + n) as char else ('A' as int + n - 10) as char
  }

  function EncodedChar(c: char): string {
    if Plain(c) then [c]
    else if c == ' ' then "+"
    else ['%', Hex(c as int / 16 % 16), Hex(c as int % 16)]
  }

  /** A query parameter as the URL holds it; the text is ASCII. */
  function Encoded(s: string): string {
    if s == [] then [] else EncodedChar(s[0]) + Encoded(s[1..])
  }

  function EncodedLength(s: string): nat {
    |Encoded(s)|
  }

  function IdsJson(ids: seq<nat>): string {
    if ids == [] then ""
    else if |ids| == 1 then Decimal(ids[0])
    else Decimal(ids[0]) + ("," + IdsJson(ids[1..]))
  }

  const FROM := "{\"dateFrom\":\""
  const TO := "\",\"dateTo\":\""
  const IDS := "\",\"clientIds\":["
  const CLOSE := "]}"

  /** The object up to its client ids; days need no escapes in JSON. */
  function DaysJson(slot: Slot): string {
    FROM + (slot.dateFrom + (TO + (slot.dateTo + IDS)))
  }

  function PieceJson(p: Piece<Slot>): string {
    DaysJson(p.key) + (IdsJson(p.ids) + CLOSE)
  }

  function PiecesJson(chunk: Chunk<Slot>): string {
    if chunk == [] then ""
    else if |chunk| == 1 then PieceJson(chunk[0])
    else PieceJson(chunk[0]) + ("," + PiecesJson(chunk[1..]))
  }

  /** The value of the `periods` parameter. */
  function Document(chunk: Chunk<Slot>): string {
    "[" + (PiecesJson(chunk) + "]")
  }

  function UrlLengthFrom(base: string): UrlLength<Slot> {
    (chunk: Chunk<Slot>) => |base| + |PATH| + EncodedLength(Document(chunk))
  }

  // -- The encoding ----------------------------------------------------------------------------------

  function HexValue(c: char): Option<nat> {
    if '0' <= c <= '9' then Some(c as int - '0' as int)
    else if 'A' <= c <= 'F' then Some(c as int - 'A' as int + 10)
    else None
  }

  /** How a server reads a parameter. */
  function Decoded(s: string): Option<string> {
    if s == [] then Some([])
    else if s[0] == '%' then
      if |s| < 3 || HexValue(s[1]).None? || HexValue(s[2]).None? then None
      else Behind((16 * HexValue(s[1]).value + HexValue(s[2]).value) as char, Decoded(s[3..]))
    else Behind(if s[0] == '+' then ' ' else s[0], Decoded(s[1..]))
  }

  function Behind(c: char, rest: Option<string>): Option<string> {
    if rest.None? then None else Some([c] + rest.value)
  }

  predicate Ascii(s: string) {
    forall i :: 0 <= i < |s| ==> s[i] as int < 128
  }

  lemma {:induction false} HexRoundTrips(n: nat)
    requires n < 16
    ensures HexValue(Hex(n)) == Some(n)
  {}

  lemma {:induction false} FirstIsDecoded(c: char, rest: string)
    requires c as int < 128
    ensures Decoded(EncodedChar(c) + rest) == Behind(c, Decoded(rest))
  {
    var s := EncodedChar(c) + rest;
    if Plain(c) || c == ' ' {
      assert s[1..] == rest;
    } else {
      assert s[3..] == rest;
      var a, b := c as int / 16 % 16, c as int % 16;
      HexRoundTrips(a);
      HexRoundTrips(b);
      assert s[0] == '%' && s[1] == Hex(a) && s[2] == Hex(b) && 16 * a + b == c as int;
    }
  }

  /** What the server reads is what was encoded. */
  lemma {:induction false} DecodedIsText(s: string)
    requires Ascii(s)
    ensures Decoded(Encoded(s)) == Some(s)
    decreases |s|
  {
    if s != [] {
      DecodedIsText(s[1..]);
      FirstIsDecoded(s[0], Encoded(s[1..]));
      assert s == [s[0]] + s[1..];
    }
  }

  predicate Letter(c: char) {
    'a' <= c <= 'z' || 'A' <= c <= 'Z' || '0' <= c <= '9'
  }

  predicate Safe(c: char) {
    Letter(c) || c in "*-._+%"
  }

  lemma {:induction false} CharIsSafe(c: char)
    ensures forall i :: 0 <= i < |EncodedChar(c)| ==> Safe(EncodedChar(c)[i])
    ensures EncodedChar(c) == [c] <==> Letter(c) || c in "*-._"
  {}

  /** A URL holds nothing but letters, digits and six marks. */
  lemma {:induction false} EncodedIsSafe(s: string, i: nat)
    requires i < |Encoded(s)|
    ensures Safe(Encoded(s)[i])
    decreases |s|
  {
    var n := |EncodedChar(s[0])|;
    CharIsSafe(s[0]);
    if i >= n {
      EncodedIsSafe(s[1..], i - n);
    }
  }

  // -- It grows -------------------------------------------------------------------------------------

  lemma {:induction false} EncodedAppends(a: string, b: string)
    ensures Encoded(a + b) == Encoded(a) + Encoded(b)
    decreases |a|
  {
    if a == [] {
      assert a + b == b;
    } else {
      assert (a + b)[1..] == a[1..] + b;
      EncodedAppends(a[1..], b);
    }
  }

  lemma {:induction false} LengthsAdd(a: string, b: string)
    ensures EncodedLength(a + b) == EncodedLength(a) + EncodedLength(b)
  {
    EncodedAppends(a, b);
  }

  lemma {:induction false} LastIdIsIn(ids: seq<nat>, id: nat)
    ensures EncodedLength(IdsJson(ids + [id])) >= EncodedLength(Decimal(id))
    decreases |ids|
  {
    if ids == [] {
      assert ids + [id] == [id];
    } else {
      assert (ids + [id])[1..] == ids[1..] + [id];
      LastIdIsIn(ids[1..], id);
      LengthsAdd(Decimal(ids[0]), "," + IdsJson(ids[1..] + [id]));
      LengthsAdd(",", IdsJson(ids[1..] + [id]));
    }
  }

  lemma {:induction false} PieceGrowsUrl(key: Slot, ids: seq<nat>, id: nat)
    ensures EncodedLength(PieceJson(Piece(key, ids + [id]))) >= EncodedLength(PieceJson(Piece(key, [id])))
  {
    LastIdIsIn(ids, id);
    LengthsAdd(IdsJson(ids + [id]), CLOSE);
    LengthsAdd(Decimal(id), CLOSE);
    LengthsAdd(DaysJson(key), IdsJson(ids + [id]) + CLOSE);
    LengthsAdd(DaysJson(key), Decimal(id) + CLOSE);
  }

  lemma {:induction false} FirstPieceIsIn(chunk: Chunk<Slot>)
    requires chunk != []
    ensures EncodedLength(PiecesJson(chunk)) >= EncodedLength(PieceJson(chunk[0]))
  {
    if |chunk| > 1 {
      LengthsAdd(PieceJson(chunk[0]), "," + PiecesJson(chunk[1..]));
    }
  }

  lemma {:induction false} InsertGrowsJson(chunk: Chunk<Slot>, a: Ask<Slot>)
    ensures EncodedLength(PiecesJson(Insert(chunk, a))) >= EncodedLength(PiecesJson(Single(a)))
    decreases |chunk|
  {
    var after := Insert(chunk, a);
    if chunk != [] && chunk[0].key == a.key {
      PieceGrowsUrl(a.key, chunk[0].ids, a.id);
      assert after[0] == Piece(a.key, chunk[0].ids + [a.id]);
      FirstPieceIsIn(after);
    } else if chunk != [] {
      InsertGrowsJson(chunk[1..], a);
      assert after[1..] == Insert(chunk[1..], a) && after[1..] != [];
      LengthsAdd(PieceJson(chunk[0]), "," + PiecesJson(after[1..]));
      LengthsAdd(",", PiecesJson(after[1..]));
    }
  }

  /** The URLs the code builds grow with the request. */
  lemma {:induction false} UrlsGrow(base: string)
    ensures Growing(UrlLengthFrom(base))
  {
    forall chunk: Chunk<Slot>, a: Ask<Slot>
      ensures UrlLengthFrom(base)(Insert(chunk, a)) >= UrlLengthFrom(base)(Single(a))
    {
      InsertGrowsJson(chunk, a);
      LengthsAdd("[", PiecesJson(Insert(chunk, a)) + "]");
      LengthsAdd("[", PiecesJson(Single(a)) + "]");
      LengthsAdd(PiecesJson(Insert(chunk, a)), "]");
      LengthsAdd(PiecesJson(Single(a)), "]");
    }
  }

  /** So with the code's own URLs the cutting succeeds exactly when every single pair fits. */
  lemma {:induction false} RequestsAreCutIff(asks: seq<Ask<Slot>>, base: string)
    ensures Greedy(asks, UrlLengthFrom(base)).Cut? <==> AllFitAlone(asks, |asks|, UrlLengthFrom(base))
  {
    UrlsGrow(base);
    CutIff(asks, UrlLengthFrom(base));
  }
}
