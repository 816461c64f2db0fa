/** Reading the parameter of a batch request back: what the service is asked for is what was cut. */
module BatchJson {
  import opened BatchChunks
  import opened BatchUrl
  import opened CalendarDays
  import opened Common
  import opened Digits
  import opened InvoiceTotals
  import opened NumericCollation

  // -- A reader of such parameters ----------------------------------------------------------------

  /** What is read, and the text behind it. */
  datatype Read<T> = Read(value: T, rest: string) | NotRead

  /** Whether s begins with the text, and what follows. */
  function Behind(s: string, text: string): Option<string> {
    if |s| >= |text| && s[..|text|] == text then Some(s[|text|..]) else None
  }

  /** Everything up to a closing quote. */
  function UpToQuote(s: string): Read<string> {
    if s == [] then NotRead
    else if s[0] == '"' then Read([], s)
    else
      match UpToQuote(s[1..])
      case NotRead => NotRead
      case Read(text, rest) => Read([s[0]] + text, rest)
  }

  /** As many digits as there are. */
  function LeadingDigits(s: string): (n: nat)
    ensures n <= |s|
  {
    if s != [] && Digit(s[0]) then 1 + LeadingDigits(s[1..]) else 0
  }

  function ReadNumber(s: string): Read<int> {
    var n := LeadingDigits(s);
    match ParsedNat(s[..n])
    case None => NotRead
    case Some(value) => Read(value, s[n..])
  }

  /** Numbers with commas between them, one at least. */
  function ReadNumbers(s: string): Read<seq<int>>
    decreases |s|
  {
    match ReadNumber(s)
    case NotRead => NotRead
    case Read(first, rest) =>
      if rest == [] || rest[0] != ',' then Read([first], rest)
      else if |rest| > |s| then NotRead
      else
        match ReadNumbers(rest[1..])
        case NotRead => NotRead
        case Read(more, end) => Read([first] + more, end)
  }

  datatype Period = Period(dateFrom: string, dateTo: string, clientIds: seq<int>)

  function ReadPeriod(s: string): Read<Period> {
    match Behind(s, "{\"dateFrom\":\"")
    case None => NotRead
    case Some(s1) =>
      match UpToQuote(s1)
      case NotRead => NotRead
      case Read(from, s2) =>
        match Behind(s2, "\",\"dateTo\":\"")
        case None => NotRead
        case Some(s3) =>
          match UpToQuote(s3)
          case NotRead => NotRead
          case Read(to, s4) => ReadIds(from, to, s4)
  }

  function ReadIds(from: string, to: string, s: string): Read<Period> {
    match Behind(s, "\",\"clientIds\":[")
    case None => NotRead
    case Some(s1) =>
      match ReadNumbers(s1)
      case NotRead => NotRead
      case Read(ids, s2) =>
        match Behind(s2, "]}")
        case None => NotRead
        case Some(s3) => Read(Period(from, to, ids), s3)
  }

  /** Periods with commas between them, one at least. */
  function ReadPeriods(s: string): Read<seq<Period>>
    decreases |s|
  {
    match ReadPeriod(s)
    case NotRead => NotRead
    case Read(first, rest) =>
      if rest == [] || rest[0] != ',' then Read([first], rest)
      else if |rest| > |s| then NotRead
      else
        match ReadPeriods(rest[1..])
        case NotRead => NotRead
        case Read(more, end) => Read([first] + more, end)
  }

  /** The whole parameter, as it stands in the URL. */
  function ReadParameter(parameter: string): Option<seq<Period>> {
    match Decoded(parameter)
    case None => None
    case Some(s) =>
      match Behind(s, "[")
      case None => None
      case Some(s1) =>
        match ReadPeriods(s1)
        case NotRead => None
        case Read(periods, end) => if end == "]" then Some(periods) else None
  }

  // -- It reads what was written ----------------------------------------------------------------------

  lemma {:induction false} LiteralIsRead(text: string, rest: string)
    ensures Behind(text + rest, text) == Some(rest)
  {
    assert (text + rest)[..|text|] == text && (text + rest)[|text|..] == rest;
  }

  predicate NoQuote(s: string) {
    forall i :: 0 <= i < |s| ==> s[i] != '"'
  }

  lemma {:induction false} DayIsRead(day: string, rest: string)
    requires NoQuote(day) && rest != [] && rest[0] == '"'
    ensures UpToQuote(day + rest) == Read(day, rest)
    decreases |day|
  {
    if day == [] {
      assert day + rest == rest;
    } else {
      assert (day + rest)[1..] == day[1..] + rest;
      DayIsRead(day[1..], rest);
      assert [day[0]] + day[1..] == day;
    }
  }

  predicate AllDigits(s: string) {
    forall i :: 0 <= i < |s| ==> Digit(s[i])
  }

  lemma {:induction false} DecimalIsParsed(n: nat)
    ensures AllDigits(Decimal(n)) && ParsedNat(Decimal(n)) == Some(n)
  {
    if n > 9 {
      DecimalIsParsed(n / 10);
      var s := Decimal(n);
      assert s[..|s| - 1] == Decimal(n / 10) && s[|s| - 1] == DigitOf(n % 10);
    }
  }

  lemma {:induction false} DigitsLead(digits: string, rest: string)
    requires AllDigits(digits) && rest != [] && !Digit(rest[0])
    ensures LeadingDigits(digits + rest) == |digits|
    decreases |digits|
  {
    if digits == [] {
      assert digits + rest == rest;
    } else {
      assert (digits + rest)[1..] == digits[1..] + rest;
      DigitsLead(digits[1..], rest);
    }
  }

  lemma {:induction false} NumberIsRead(n: nat, rest: string)
    requires rest != [] && !Digit(rest[0])
    ensures ReadNumber(Decimal(n) + rest) == Read(n, rest)
  {
    DecimalIsParsed(n);
    DigitsLead(Decimal(n), rest);
    assert (Decimal(n) + rest)[..|Decimal(n)|] == Decimal(n) && (Decimal(n) + rest)[|Decimal(n)|..] == rest;
  }

  lemma {:induction false} NextIdIsRead(n: nat, more: string, ids: seq<int>, rest: string)
    requires ReadNumbers(more) == Read(ids, rest)
    ensures ReadNumbers(Decimal(n) + ("," + more)) == Read([n] + ids, rest)
  {
    NumberIsRead(n, "," + more);
    assert ("," + more)[1..] == more;
  }

  lemma {:induction false} Regroup(a: string, b: string, rest: string)
    ensures (a + ("," + b)) + rest == a + ("," + (b + rest))
  {}

  lemma {:induction false} IdsAreRead(ids: seq<nat>, rest: string)
    requires ids != [] && rest != [] && !Digit(rest[0]) && rest[0] != ','
    ensures ReadNumbers(IdsJson(ids) + rest) == Read(ids, rest)
    decreases |ids|
  {
    if |ids| == 1 {
      NumberIsRead(ids[0], rest);
      assert ids == [ids[0]];
    } else {
      var more := IdsJson(ids[1..]) + rest;
      IdsAreRead(ids[1..], rest);
      NextIdIsRead(ids[0], more, ids[1..], rest);
      Regroup(Decimal(ids[0]), IdsJson(ids[1..]), rest);
      assert [ids[0]] + ids[1..] == ids;
    }
  }

  function PeriodOf(p: Piece<Slot>): Period {
    Period(p.key.dateFrom, p.key.dateTo, p.ids)
  }

  predicate Writable(p: Piece<Slot>) {
    NoQuote(p.key.dateFrom) && NoQuote(p.key.dateTo) && p.ids != []
  }

  lemma {:induction false} PeriodIsRead(p: Piece<Slot>, rest: string)
    requires Writable(p)
    ensures ReadPeriod(PieceJson(p) + rest) == Read(PeriodOf(p), rest)
  {
    var s4 := IDS + (IdsJson(p.ids) + (CLOSE + rest));
    var s3 := p.key.dateTo + s4;
    var s1 := p.key.dateFrom + (TO + s3);
    assert PieceJson(p) + rest == FROM + s1;
    LiteralIsRead(FROM, s1);
    assert (TO + s3)[0] == '"' && s4[0] == '"';
    DayIsRead(p.key.dateFrom, TO + s3);
    LiteralIsRead(TO, s3);
    DayIsRead(p.key.dateTo, s4);
    IdsBehindDays(p, rest);
  }

  lemma {:induction false} IdsBehindDays(p: Piece<Slot>, rest: string)
    requires Writable(p)
    ensures ReadIds(p.key.dateFrom, p.key.dateTo, IDS + (IdsJson(p.ids) + (CLOSE + rest))) == Read(PeriodOf(p), rest)
  {
    LiteralIsRead(IDS, IdsJson(p.ids) + (CLOSE + rest));
    assert (CLOSE + rest)[0] == ']';
    IdsAreRead(p.ids, CLOSE + rest);
    LiteralIsRead(CLOSE, rest);
  }

  function PeriodsOf(chunk: Chunk<Slot>): (r: seq<Period>)
    ensures |r| == |chunk| && forall i :: 0 <= i < |chunk| ==> r[i] == PeriodOf(chunk[i])
  {
    seq(|chunk|, i requires 0 <= i < |chunk| => PeriodOf(chunk[i]))
  }

  lemma {:induction false} NextPeriodIsRead(p: Piece<Slot>, more: string, periods: seq<Period>, rest: string)
    requires Writable(p) && ReadPeriods(more) == Read(periods, rest)
    ensures ReadPeriods(PieceJson(p) + ("," + more)) == Read([PeriodOf(p)] + periods, rest)
  {
    PeriodIsRead(p, "," + more);
    assert ("," + more)[1..] == more;
  }

  lemma {:induction false} LastPeriodIsRead(p: Piece<Slot>, rest: string)
    requires Writable(p) && rest != [] && rest[0] != ','
    ensures ReadPeriods(PieceJson(p) + rest) == Read([PeriodOf(p)], rest)
  {
    PeriodIsRead(p, rest);
  }

  lemma {:induction false} FirstPeriod(chunk: Chunk<Slot>)
    requires chunk != []
    ensures PeriodsOf(chunk) == [PeriodOf(chunk[0])] + PeriodsOf(chunk[1..])
    ensures PiecesJson(chunk)
         == if |chunk| == 1 then PieceJson(chunk[0]) else PieceJson(chunk[0]) + ("," + PiecesJson(chunk[1..]))
  {}

  lemma {:induction false} PeriodsAreRead(chunk: Chunk<Slot>, rest: string)
    requires chunk != [] && (forall i :: 0 <= i < |chunk| ==> Writable(chunk[i]))
    requires rest != [] && rest[0] != ','
    ensures ReadPeriods(PiecesJson(chunk) + rest) == Read(PeriodsOf(chunk), rest)
    decreases |chunk|
  {
    var first, others := chunk[0], chunk[1..];
    FirstPeriod(chunk);
    if |chunk| == 1 {
      LastPeriodIsRead(first, rest);
      assert PeriodsOf(chunk) == [PeriodOf(first)];
    } else {
      PeriodsAreRead(others, rest);
      NextPeriodIsRead(first, PiecesJson(others) + rest, PeriodsOf(others), rest);
      Regroup(PieceJson(first), PiecesJson(others), rest);
    }
  }

  // -- All of it is ASCII ------------------------------------------------------------------------------

  lemma {:induction false} AsciiAppends(a: string, b: string)
    requires Ascii(a) && Ascii(b)
    ensures Ascii(a + b)
  {}

  lemma {:induction false} MarksAreAscii()
    ensures Ascii(FROM) && Ascii(TO) && Ascii(IDS) && Ascii(CLOSE) && Ascii(",") && Ascii("[") && Ascii("]")
  {}

  lemma {:induction false} IdsAreAscii(ids: seq<nat>)
    ensures Ascii(IdsJson(ids))
    decreases |ids|
  {
    if ids != [] {
      DecimalIsParsed(ids[0]);
      IdsAreAscii(ids[1..]);
      AsciiAppends(",", IdsJson(ids[1..]));
      AsciiAppends(Decimal(ids[0]), "," + IdsJson(ids[1..]));
    }
  }

  /** A piece whose days are written as days are. */
  predicate HasDays(p: Piece<Slot>) {
    Shaped(p.key.dateFrom) && Shaped(p.key.dateTo) && p.ids != []
  }

  lemma {:induction false} DaysAreWritable(day: string)
    requires Shaped(day)
    ensures NoQuote(day) && Ascii(day)
  {
    forall i | 0 <= i < |day| ensures day[i] != '"' && day[i] as int < 128 {
      assert i == 4 || i == 7 || Digit(day[i]);
    }
  }

  lemma {:induction false} PieceIsAscii(p: Piece<Slot>)
    requires HasDays(p)
    ensures Ascii(PieceJson(p)) && Writable(p)
  {
    MarksAreAscii();
    DaysAreWritable(p.key.dateFrom);
    DaysAreWritable(p.key.dateTo);
    IdsAreAscii(p.ids);
    AsciiAppends(p.key.dateTo, IDS);
    AsciiAppends(TO, p.key.dateTo + IDS);
    AsciiAppends(p.key.dateFrom, TO + (p.key.dateTo + IDS));
    AsciiAppends(FROM, p.key.dateFrom + (TO + (p.key.dateTo + IDS)));
    AsciiAppends(IdsJson(p.ids), CLOSE);
    AsciiAppends(DaysJson(p.key), IdsJson(p.ids) + CLOSE);
  }

  lemma {:induction false} PiecesAreAscii(chunk: Chunk<Slot>)
    requires forall i :: 0 <= i < |chunk| ==> HasDays(chunk[i])
    ensures Ascii(PiecesJson(chunk))
    decreases |chunk|
  {
    if chunk != [] {
      FirstPeriod(chunk);
      PieceIsAscii(chunk[0]);
      PiecesAreAscii(chunk[1..]);
      AsciiAppends(",", PiecesJson(chunk[1..]));
      AsciiAppends(PieceJson(chunk[0]), "," + PiecesJson(chunk[1..]));
    }
  }

  /** What the service reads from the URL of a request: its periods, with their days and just their
      clients, in order. */
  lemma {:induction false} RequestIsRead(chunk: Chunk<Slot>)
    requires chunk != [] && forall i :: 0 <= i < |chunk| ==> HasDays(chunk[i])
    ensures ReadParameter(Encoded(Document(chunk))) == Some(PeriodsOf(chunk))
  {
    MarksAreAscii();
    PiecesAreAscii(chunk);
    AsciiAppends(PiecesJson(chunk), "]");
    AsciiAppends("[", PiecesJson(chunk) + "]");
    forall i | 0 <= i < |chunk| ensures Writable(chunk[i]) {
      PieceIsAscii(chunk[i]);
    }
    DecodedIsText(Document(chunk));
    LiteralIsRead("[", PiecesJson(chunk) + "]");
    PeriodsAreRead(chunk, "]");
  }
}
