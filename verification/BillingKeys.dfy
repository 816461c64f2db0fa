/** Which window of which client every row of the billing list takes its money from: periods are
    clamped to the selected range, keyed, grouped for the upstream calls, and paired with the
    canonical totals or not at all. */
module BillingKeys {
  import opened CalendarDays
  import opened Common
  import opened WindowMoney

  datatype Result<T> = Ok(value: T) | Breach(reason: Reason)

  datatype Reason =
    | RangeInvalid
    | ClientIdNotInteger
    | PeriodBoundsIncomplete
    | PeriodBoundInvalid
    | PeriodOutsideRange
    | DuplicateClientPeriod
    | CanonicalTotalsIncomplete

  /** A field of a row as it comes from the database. */
  datatype IdField = Whole(n: int) | OtherId
  datatype DayField = Text(s: string) | NotText

  datatype Row = Row(clientId: IdField, periodStart: DayField, periodEnd: DayField, payload: int)
  datatype Range = Range(fromDay: string, toDay: string)
  datatype Keyed = Keyed(row: Row, clientId: nat, key: string, dateFrom: string, dateTo: string)
  datatype Period = Period(key: string, dateFrom: string, dateTo: string, clientIds: seq<nat>)

  function KeyOf(dateFrom: string, dateTo: string): string {
    dateFrom + "|" + dateTo
  }

  predicate Grouped(row: Row) {
    row.periodStart.Text?
  }

  predicate ValidRange(range: Range) {
    IsCalendarDay(range.fromDay) && IsCalendarDay(range.toDay)
  }

  /** One row on its own. */
  function KeyRow(row: Row, range: Range): Result<Keyed> {
    if !row.clientId.Whole? || row.clientId.n <= 0 then Breach(ClientIdNotInteger)
    else if row.periodStart.Text? != row.periodEnd.Text? then Breach(PeriodBoundsIncomplete)
    else if Grouped(row) && (!IsCalendarDay(row.periodStart.s) || !IsCalendarDay(row.periodEnd.s))
    then Breach(PeriodBoundInvalid)
    else
      var dateFrom := if Grouped(row) then MaxDay(row.periodStart.s, range.fromDay) else range.fromDay;
      var dateTo := if Grouped(row) then MinDay(row.periodEnd.s, range.toDay) else range.toDay;
      if Less(dateTo, dateFrom) then Breach(PeriodOutsideRange)
      else
        var visible := if Grouped(row) then row.(periodStart := Text(dateFrom), periodEnd := Text(dateTo)) else row;
        Ok(Keyed(visible, row.clientId.n, KeyOf(dateFrom, dateTo), dateFrom, dateTo))
  }

  predicate SameIdentity(a: Keyed, b: Keyed) {
    a.clientId == b.clientId && a.key == b.key
  }

  /** Row after row; the first breach ends it. */
  function KeyAll(rows: seq<Row>, range: Range): (r: Result<seq<Keyed>>)
    ensures r.Ok? ==> |r.value| == |rows|
    decreases |rows|
  {
    if rows == [] then Ok([])
    else
      match KeyAll(rows[..|rows| - 1], range)
      case Breach(reason) => Breach(reason)
      case Ok(done) =>
        match KeyRow(rows[|rows| - 1], range)
        case Breach(reason) => Breach(reason)
        case Ok(k) =>
          if exists i :: 0 <= i < |done| && SameIdentity(done[i], k) then Breach(DuplicateClientPeriod)
          else Ok(done + [k])
  }

  /** Into the period of its key, or a new period at the end. */
  function AddTo(periods: seq<Period>, k: Keyed): seq<Period> {
    if periods == [] then [Period(k.key, k.dateFrom, k.dateTo, [k.clientId])]
    else if periods[0].key == k.key
    then [periods[0].(clientIds := periods[0].clientIds + [k.clientId])] + periods[1..]
    else [periods[0]] + AddTo(periods[1..], k)
  }

  function Group(keyed: seq<Keyed>): seq<Period>
    decreases |keyed|
  {
    if keyed == [] then [] else AddTo(Group(keyed[..|keyed| - 1]), keyed[|keyed| - 1])
  }

  // -- The clamp ------------------------------------------------------------------------------------

  predicate ValidKeyed(k: Keyed) {
    && IsCalendarDay(k.dateFrom) && IsCalendarDay(k.dateTo)
    && !Less(k.dateTo, k.dateFrom)
    && k.key == KeyOf(k.dateFrom, k.dateTo)
  }

  predicate InWindow(k: Keyed, n: int)
    requires ValidKeyed(k)
  {
    Num(k.dateFrom) <= n <= Num(k.dateTo)
  }

  predicate InRange(range: Range, n: int)
    requires ValidRange(range)
  {
    Num(range.fromDay) <= n <= Num(range.toDay)
  }

  predicate WellFormed(row: Row) {
    && row.clientId.Whole? && row.clientId.n > 0
    && row.periodStart.Text? == row.periodEnd.Text?
    && (Grouped(row) ==> IsCalendarDay(row.periodStart.s) && IsCalendarDay(row.periodEnd.s))
  }

  /** The days a row is labelled with; an ungrouped row has no label and stands for any day. */
  predicate Labelled(row: Row, n: int)
    requires WellFormed(row)
  {
    Grouped(row) ==> Num(row.periodStart.s) <= n <= Num(row.periodEnd.s)
  }

  /** A row is keyed exactly when it is well formed and its label meets the range, and its window is
      the intersection of the two. */
  lemma {:induction false} WindowIsIntersection(row: Row, range: Range)
    requires ValidRange(range) && KeyRow(row, range).Ok?
    ensures WellFormed(row) && ValidKeyed(KeyRow(row, range).value)
    ensures forall n :: InWindow(KeyRow(row, range).value, n) <==> Labelled(row, n) && InRange(range, n)
  {
    var k := KeyRow(row, range).value;
    if Grouped(row) {
      LessIsNumber(range.fromDay, row.periodStart.s);
      LessIsNumber(row.periodEnd.s, range.toDay);
    }
  }

  lemma {:induction false} KeyedIff(row: Row, range: Range)
    requires ValidRange(range)
    ensures KeyRow(row, range).Ok? <==> WellFormed(row) && exists n :: Labelled(row, n) && InRange(range, n)
  {
    if KeyRow(row, range).Ok? {
      WindowIsIntersection(row, range);
      var k := KeyRow(row, range).value;
      LessIsNumber(k.dateTo, k.dateFrom);
      assert InWindow(k, Num(k.dateFrom));
    } else if WellFormed(row) {
      var dateFrom := if Grouped(row) then MaxDay(row.periodStart.s, range.fromDay) else range.fromDay;
      var dateTo := if Grouped(row) then MinDay(row.periodEnd.s, range.toDay) else range.toDay;
      LessIsNumber(dateTo, dateFrom);
      if Grouped(row) {
        LessIsNumber(range.fromDay, row.periodStart.s);
        LessIsNumber(row.periodEnd.s, range.toDay);
      }
    }
  }

  lemma {:induction false} KeyAllAt(rows: seq<Row>, range: Range, i: nat)
    requires KeyAll(rows, range).Ok? && i < |rows|
    ensures KeyRow(rows[i], range) == Ok(KeyAll(rows, range).value[i])
    decreases |rows|
  {
    if i < |rows| - 1 {
      KeyAllAt(rows[..|rows| - 1], range, i);
    }
  }

  lemma {:induction false} DistinctRowsAreKeyed(rows: seq<Row>, range: Range)
    requires AllKeyed(rows, range) && NoneTwice(rows, range)
    ensures KeyAll(rows, range).Ok?
    decreases |rows|
  {
    if rows != [] {
      var front := rows[..|rows| - 1];
      FrontKeys(rows, range);
      DistinctRowsAreKeyed(front, range);
      var done, k := KeyAll(front, range).value, KeyRow(rows[|rows| - 1], range).value;
      forall i | 0 <= i < |done| ensures !SameIdentity(done[i], k) {
        KeyAllAt(front, range, i);
      }
    }
  }

  /** The whole list is keyed exactly when every row is, and no client gets one window twice. */
  lemma {:induction false} KeyAllIff(rows: seq<Row>, range: Range)
    ensures KeyAll(rows, range).Ok? <==> AllKeyed(rows, range) && NoneTwice(rows, range)
  {
    if KeyAll(rows, range).Ok? {
      forall i | 0 <= i < |rows| ensures KeyRow(rows[i], range) == Ok(KeyAll(rows, range).value[i]) {
        KeyAllAt(rows, range, i);
      }
      forall i, j | 0 <= i < j < |rows|
        ensures !SameIdentity(KeyAll(rows, range).value[i], KeyAll(rows, range).value[j])
      {
        IdentitiesAreDistinct(rows, range, i, j);
      }
    } else if AllKeyed(rows, range) && NoneTwice(rows, range) {
      DistinctRowsAreKeyed(rows, range);
    }
  }

  predicate AllKeyed(rows: seq<Row>, range: Range) {
    forall i :: 0 <= i < |rows| ==> KeyRow(rows[i], range).Ok?
  }

  predicate NoneTwice(rows: seq<Row>, range: Range) {
    forall i, j :: 0 <= i < j < |rows| && KeyRow(rows[i], range).Ok? && KeyRow(rows[j], range).Ok?
      ==> !SameIdentity(KeyRow(rows[i], range).value, KeyRow(rows[j], range).value)
  }

  lemma {:induction false} FrontKeys(rows: seq<Row>, range: Range)
    requires rows != []
    ensures AllKeyed(rows, range) ==> AllKeyed(rows[..|rows| - 1], range)
    ensures NoneTwice(rows, range) ==> NoneTwice(rows[..|rows| - 1], range)
  {
    var front := rows[..|rows| - 1];
    assert forall i :: 0 <= i < |front| ==> front[i] == rows[i];
  }

  /** No client is given the same window twice. */
  lemma {:induction false} IdentitiesAreDistinct(rows: seq<Row>, range: Range, i: nat, j: nat)
    requires KeyAll(rows, range).Ok? && i < j < |rows|
    ensures !SameIdentity(KeyAll(rows, range).value[i], KeyAll(rows, range).value[j])
    decreases |rows|
  {
    if j < |rows| - 1 {
      IdentitiesAreDistinct(rows[..|rows| - 1], range, i, j);
    }
  }

  // -- From labels to money --------------------------------------------------------------------------

  predicate AllValid(keyed: seq<Keyed>) {
    forall i :: 0 <= i < |keyed| ==> ValidKeyed(keyed[i])
  }

  function WindowOf(k: Keyed): Window
    requires ValidKeyed(k)
  {
    Window(k.clientId, Num(k.dateFrom), Num(k.dateTo))
  }

  function Windows(keyed: seq<Keyed>): (r: seq<Window>)
    requires AllValid(keyed)
    ensures |r| == |keyed| && forall i :: 0 <= i < |keyed| ==> r[i] == WindowOf(keyed[i])
  {
    if keyed == [] then [] else [WindowOf(keyed[0])] + Windows(keyed[1..])
  }

  predicate AllWellFormed(rows: seq<Row>) {
    forall i :: 0 <= i < |rows| ==> WellFormed(rows[i])
  }

  /** How many of the client's labels contain day n. */
  function LabelsOn(rows: seq<Row>, client: nat, n: int): nat
    requires AllWellFormed(rows)
  {
    if rows == [] then 0
    else LabelsOn(rows[1..], client, n) + if rows[0].clientId.n == client && Labelled(rows[0], n) then 1 else 0
  }

  /** keyed[i] is what row i is keyed to. */
  predicate Corresponds(rows: seq<Row>, range: Range, keyed: seq<Keyed>) {
    |keyed| == |rows| && forall i :: 0 <= i < |rows| ==> KeyRow(rows[i], range) == Ok(keyed[i])
  }

  lemma {:induction false} KeyedAreInside(rows: seq<Row>, range: Range, keyed: seq<Keyed>)
    requires ValidRange(range) && Corresponds(rows, range, keyed)
    ensures AllWellFormed(rows) && AllValid(keyed)
    ensures AllInside(Windows(keyed), Num(range.fromDay), Num(range.toDay))
  {
    forall i | 0 <= i < |rows|
      ensures WellFormed(rows[i]) && ValidKeyed(keyed[i])
      ensures Num(range.fromDay) <= WindowOf(keyed[i]).from && WindowOf(keyed[i]).to <= Num(range.toDay)
    {
      WindowIsIntersection(rows[i], range);
      LessIsNumber(keyed[i].dateTo, keyed[i].dateFrom);
      assert InWindow(keyed[i], Num(keyed[i].dateFrom)) && InWindow(keyed[i], Num(keyed[i].dateTo));
    }
  }

  lemma {:induction false} CoversAreLabels(rows: seq<Row>, range: Range, keyed: seq<Keyed>, client: nat, n: int)
    requires ValidRange(range) && Corresponds(rows, range, keyed)
    requires AllWellFormed(rows) && AllValid(keyed) && InRange(range, n)
    ensures Covers(Windows(keyed), client, n) == LabelsOn(rows, client, n)
    decreases |rows|
  {
    if rows != [] {
      CoversAreLabels(rows[1..], range, keyed[1..], client, n);
      WindowIsIntersection(rows[0], range);
      assert Contains(WindowOf(keyed[0]), n) <==> InWindow(keyed[0], n);
    }
  }

  /** Every day of the range carries exactly one label of the client. */
  ghost predicate LabelsTile(rows: seq<Row>, client: nat, range: Range)
    requires AllWellFormed(rows) && ValidRange(range)
  {
    forall n :: InRange(range, n) ==> LabelsOn(rows, client, n) == 1
  }

  /** What the clamp is for: a client's rows add up to its charges over the selected range, whatever
      the charges are, exactly when its labels tile (a superset of) the range. */
  lemma {:induction false} ClampConservesMoneyIff(rows: seq<Row>, range: Range, keyed: seq<Keyed>, client: nat)
    requires ValidRange(range) && Corresponds(rows, range, keyed)
    ensures AllWellFormed(rows) && AllValid(keyed)
    ensures MoneyIsConserved(Windows(keyed), client, Num(range.fromDay), Num(range.toDay))
       <==> LabelsTile(rows, client, range)
  {
    var lo, hi := Num(range.fromDay), Num(range.toDay);
    KeyedAreInside(rows, range, keyed);
    ConservedIff(Windows(keyed), client, lo, hi);
    forall n | lo <= n <= hi ensures Covers(Windows(keyed), client, n) == LabelsOn(rows, client, n) {
      CoversAreLabels(rows, range, keyed, client, n);
    }
    assert forall n :: InRange(range, n) <==> lo <= n <= hi;
  }

  // -- Grouping for the upstream calls -----------------------------------------------------------------

  /** The clients keyed to one window, in row order. */
  function ClientsOf(keyed: seq<Keyed>, key: string): seq<nat>
    decreases |keyed|
  {
    if keyed == [] then []
    else
      var last := keyed[|keyed| - 1];
      ClientsOf(keyed[..|keyed| - 1], key) + if last.key == key then [last.clientId] else []
  }

  function Lookup(periods: seq<Period>, key: string): Option<Period> {
    if periods == [] then None
    else if periods[0].key == key then Some(periods[0])
    else Lookup(periods[1..], key)
  }

  function Keys(periods: seq<Period>): seq<string> {
    if periods == [] then [] else [periods[0].key] + Keys(periods[1..])
  }

  lemma {:induction false} LookupAddTo(periods: seq<Period>, k: Keyed, key: string)
    ensures Lookup(AddTo(periods, k), key)
         == if key != k.key then Lookup(periods, key)
            else
              match Lookup(periods, key)
              case None => Some(Period(k.key, k.dateFrom, k.dateTo, [k.clientId]))
              case Some(p) => Some(p.(clientIds := p.clientIds + [k.clientId]))
    decreases |periods|
  {
    if periods != [] && periods[0].key != k.key {
      LookupAddTo(periods[1..], k, key);
    }
  }

  lemma {:induction false} KeysAddTo(periods: seq<Period>, k: Keyed)
    ensures Keys(AddTo(periods, k)) == Keys(periods) + if k.key in Keys(periods) then [] else [k.key]
    decreases |periods|
  {
    if periods == [] {
      assert Keys(AddTo(periods, k)) == [k.key];
    } else if periods[0].key == k.key {
      assert AddTo(periods, k)[1..] == periods[1..];
    } else {
      KeysAddTo(periods[1..], k);
      assert AddTo(periods, k)[1..] == AddTo(periods[1..], k);
      assert Keys(periods) == [periods[0].key] + Keys(periods[1..]);
    }
  }

  lemma {:induction false} KeysAreDistinct(keyed: seq<Keyed>)
    ensures NoRepeats(Keys(Group(keyed)))
    decreases |keyed|
  {
    if keyed != [] {
      KeysAreDistinct(keyed[..|keyed| - 1]);
      KeysAddTo(Group(keyed[..|keyed| - 1]), keyed[|keyed| - 1]);
    }
  }

  predicate KeyShowsWindow(k: Keyed) {
    |k.key| == 21 && k.key[..10] == k.dateFrom && k.key[11..] == k.dateTo
  }

  lemma {:induction false} ValidKeyShowsWindow(k: Keyed)
    requires ValidKeyed(k)
    ensures KeyShowsWindow(k)
  {
    assert |k.dateFrom| == 10 && |k.dateTo| == 10;
  }

  lemma {:induction false} LookupGroup(keyed: seq<Keyed>, key: string)
    requires forall i :: 0 <= i < |keyed| ==> KeyShowsWindow(keyed[i])
    ensures var clients := ClientsOf(keyed, key);
            if clients == [] then Lookup(Group(keyed), key) == None
            else |key| == 21 && Lookup(Group(keyed), key) == Some(Period(key, key[..10], key[11..], clients))
    decreases |keyed|
  {
    if keyed != [] {
      var front, k := keyed[..|keyed| - 1], keyed[|keyed| - 1];
      LookupGroup(front, key);
      LookupAddTo(Group(front), k, key);
      assert KeyShowsWindow(k);
      assert ClientsOf(front, key) + [] == ClientsOf(front, key);
      assert ClientsOf(front, key) == [] ==> ClientsOf(front, key) + [k.clientId] == [k.clientId];
    }
  }

  /** One period per distinct window, and in it the clients keyed to that window, in row order. */
  lemma {:induction false} GroupIsByWindow(keyed: seq<Keyed>, key: string)
    requires AllValid(keyed)
    ensures NoRepeats(Keys(Group(keyed)))
    ensures var clients := ClientsOf(keyed, key);
            if clients == [] then Lookup(Group(keyed), key) == None
            else |key| == 21 && Lookup(Group(keyed), key) == Some(Period(key, key[..10], key[11..], clients))
  {
    KeysAreDistinct(keyed);
    forall i | 0 <= i < |keyed| ensures KeyShowsWindow(keyed[i]) {
      ValidKeyShowsWindow(keyed[i]);
    }
    LookupGroup(keyed, key);
  }

  // -- Pairing with the canonical totals -----------------------------------------------------------------

  type Canonical<T> = map<string, map<nat, T>>

  predicate Answered<T>(k: Keyed, canonical: Canonical<T>) {
    k.key in canonical && k.clientId in canonical[k.key]
  }

  /** The upstream service answers every period it is asked about with its charges. */
  predicate Honest(canonical: Canonical<int>, keyed: seq<Keyed>, charges: nat -> PerDay)
    requires AllValid(keyed)
  {
    forall i :: 0 <= i < |keyed| ==>
      var k := keyed[i];
      && Answered(k, canonical)
      && canonical[k.key][k.clientId] == SumDays(charges(k.clientId), Num(k.dateFrom), Num(k.dateTo))
  }

  method AssignCanonicalTotals<T>(keyed: seq<Keyed>, canonical: Canonical<T>) returns (r: Result<seq<(Row, T)>>)
    ensures r.Ok? <==> forall i :: 0 <= i < |keyed| ==> Answered(keyed[i], canonical)
    ensures r.Breach? ==> r.reason == CanonicalTotalsIncomplete
    ensures r.Ok? ==>
              && |r.value| == |keyed|
              && forall i :: 0 <= i < |keyed| ==>
                   r.value[i] == (keyed[i].row, canonical[keyed[i].key][keyed[i].clientId])
  {
    var rows := [];
    for i := 0 to |keyed|
      invariant |rows| == i
      invariant forall j :: 0 <= j < i ==>
                  && Answered(keyed[j], canonical)
                  && rows[j] == (keyed[j].row, canonical[keyed[j].key][keyed[j].clientId])
    {
      if !Answered(keyed[i], canonical) {
        return Breach(CanonicalTotalsIncomplete);
      }
      rows := rows + [(keyed[i].row, canonical[keyed[i].key][keyed[i].clientId])];
    }
    return Ok(rows);
  }

  /** The sum in the list's footer for one client. */
  function FooterOf(rows: seq<(Row, int)>, client: nat): int {
    if rows == [] then 0
    else FooterOf(rows[1..], client) + if rows[0].0.clientId == Whole(client) then rows[0].1 else 0
  }

  predicate Assigned(keyed: seq<Keyed>, canonical: Canonical<int>, rows: seq<(Row, int)>) {
    && |rows| == |keyed|
    && forall i :: 0 <= i < |keyed| ==>
         && Answered(keyed[i], canonical)
         && rows[i] == (keyed[i].row, canonical[keyed[i].key][keyed[i].clientId])
  }

  predicate IdsKept(keyed: seq<Keyed>) {
    forall i :: 0 <= i < |keyed| ==> keyed[i].row.clientId == Whole(keyed[i].clientId)
  }

  lemma {:induction false} FooterIsTotal(
    keyed: seq<Keyed>, canonical: Canonical<int>, rows: seq<(Row, int)>, client: nat, charges: nat -> PerDay)
    requires AllValid(keyed) && IdsKept(keyed)
    requires Assigned(keyed, canonical, rows) && Honest(canonical, keyed, charges)
    ensures FooterOf(rows, client) == ClientTotal(Windows(keyed), client, charges(client))
    decreases |keyed|
  {
    if keyed != [] {
      FooterIsTotal(keyed[1..], canonical, rows[1..], client, charges);
      assert Windows(keyed)[1..] == Windows(keyed[1..]);
    }
  }

  /** From the raw rows to the footer: if the list is keyed, the upstream service answers with its
      charges, and the client's labels tile the range, the footer shows the client's charges over
      exactly the selected range. */
  lemma {:induction false} FooterIsRangeMoney(
    rows: seq<Row>, range: Range, keyed: seq<Keyed>, canonical: Canonical<int>, shown: seq<(Row, int)>, client: nat,
    charges: nat -> PerDay)
    requires ValidRange(range) && KeyAll(rows, range) == Ok(keyed)
    requires AllValid(keyed) && Honest(canonical, keyed, charges) && Assigned(keyed, canonical, shown)
    requires AllWellFormed(rows) && LabelsTile(rows, client, range)
    ensures FooterOf(shown, client) == SumDays(charges(client), Num(range.fromDay), Num(range.toDay))
  {
    KeyedInOrder(rows, range, keyed);
    ClampConservesMoneyIff(rows, range, keyed, client);
    FooterIsTotal(keyed, canonical, shown, client, charges);
  }

  lemma {:induction false} KeyedInOrder(rows: seq<Row>, range: Range, keyed: seq<Keyed>)
    requires KeyAll(rows, range) == Ok(keyed)
    ensures Corresponds(rows, range, keyed) && IdsKept(keyed)
  {
    forall i | 0 <= i < |rows|
      ensures KeyRow(rows[i], range) == Ok(keyed[i])
      ensures keyed[i].row.clientId == Whole(keyed[i].clientId)
    {
      KeyAllAt(rows, range, i);
    }
  }

  // -- What becomes of a row ----------------------------------------------------------------------------

  /** The visible row: a grouped one is labelled with exactly the days of its window, so that what it
      opens is what its money is for; an ungrouped one is as it was. Nothing else of it changes. */
  lemma {:induction false} VisibleRowIsWindow(rows: seq<Row>, range: Range, keyed: seq<Keyed>, i: nat)
    requires ValidRange(range) && KeyAll(rows, range) == Ok(keyed) && i < |rows|
    ensures var k := keyed[i];
            && ValidKeyed(k) && rows[i].clientId == Whole(k.clientId)
            && k.row.clientId == rows[i].clientId && k.row.payload == rows[i].payload
            && (if Grouped(rows[i])
                then Grouped(k.row) && WellFormed(k.row) && forall n :: Labelled(k.row, n) <==> InWindow(k, n)
                else k.row == rows[i])
  {
    KeyAllAt(rows, range, i);
    WindowIsIntersection(rows[i], range);
  }

  /** Why a single row is refused. */
  lemma {:induction false} RowReasons(row: Row, range: Range)
    requires ValidRange(range) && KeyRow(row, range).Breach?
    ensures var positive := row.clientId.Whole? && row.clientId.n > 0;
            var both := row.periodStart.Text? && row.periodEnd.Text?;
            var neither := row.periodStart.NotText? && row.periodEnd.NotText?;
            match KeyRow(row, range).reason
            case ClientIdNotInteger => !positive
            case PeriodBoundsIncomplete => positive && !both && !neither
            case PeriodBoundInvalid =>
              positive && both && !(IsCalendarDay(row.periodStart.s) && IsCalendarDay(row.periodEnd.s))
            case PeriodOutsideRange =>
              WellFormed(row) && forall n :: !(Labelled(row, n) && InRange(range, n))
            case _ => false
  {
    KeyedIff(row, range);
  }

  /** Why a list is refused: for the reason of its first bad row, or because a row before has the same
      client and window. */
  lemma {:induction false} FirstBreach(rows: seq<Row>, range: Range) returns (i: nat)
    requires KeyAll(rows, range).Breach?
    ensures i < |rows| && KeyAll(rows[..i], range).Ok?
    ensures KeyAll(rows, range).reason
         == if KeyRow(rows[i], range).Breach? then KeyRow(rows[i], range).reason else DuplicateClientPeriod
    ensures KeyRow(rows[i], range).Ok? ==>
              exists j :: 0 <= j < i && SameIdentity(KeyAll(rows[..i], range).value[j], KeyRow(rows[i], range).value)
    decreases |rows|
  {
    var front := rows[..|rows| - 1];
    if KeyAll(front, range).Breach? {
      i := FirstBreach(front, range);
      assert front[..i] == rows[..i];
    } else {
      i := |rows| - 1;
    }
  }

  // -- The function itself ------------------------------------------------------------------------------------

  datatype Keying = Keying(keyed: seq<Keyed>, periods: seq<Period>)

  /** The specification of keyBillingSummaryRows. */
  function KeyBillingRows(rows: seq<Row>, range: Range): Result<Keying> {
    if !ValidRange(range) then Breach(RangeInvalid)
    else
      match KeyAll(rows, range)
      case Breach(reason) => Breach(reason)
      case Ok(keyed) => Ok(Keying(keyed, Group(keyed)))
  }

  /** When a summary is keyed, from the first check on: the range is of real days, every row has a whole
      positive client, both bounds or neither, real days as bounds and a day in the range, and no two
      rows fall on the same client and window. */
  lemma {:induction false} BillingRowsAreKeyedIff(rows: seq<Row>, range: Range)
    ensures KeyBillingRows(rows, range).Ok?
       <==> && IsCalendarDay(range.fromDay) && IsCalendarDay(range.toDay)
            && (forall i :: 0 <= i < |rows| ==>
                  WellFormed(rows[i]) && exists n :: Labelled(rows[i], n) && InRange(range, n))
            && NoneTwice(rows, range)
    ensures KeyBillingRows(rows, range) == Breach(RangeInvalid)
       <==> !(IsCalendarDay(range.fromDay) && IsCalendarDay(range.toDay))
    ensures KeyBillingRows(rows, range).Ok? ==>
              var keying := KeyBillingRows(rows, range).value;
              KeyAll(rows, range) == Ok(keying.keyed) && keying.periods == Group(keying.keyed)
  {
    if ValidRange(range) {
      KeyAllIff(rows, range);
      forall i | 0 <= i < |rows|
        ensures KeyRow(rows[i], range).Ok? <==> WellFormed(rows[i]) && exists n :: Labelled(rows[i], n) && InRange(range, n)
      {
        KeyedIff(rows[i], range);
      }
      if KeyAll(rows, range).Breach? {
        var i := FirstBreach(rows, range);
        if KeyRow(rows[i], range).Breach? {
          RowReasons(rows[i], range);
        }
      }
    }
  }

  lemma {:induction false} BreachStays(rows: seq<Row>, range: Range, n: nat)
    requires n <= |rows| && KeyAll(rows[..n], range).Breach?
    ensures KeyAll(rows, range) == KeyAll(rows[..n], range)
    decreases |rows|
  {
    if n < |rows| {
      var front := rows[..|rows| - 1];
      assert front[..n] == rows[..n];
      BreachStays(front, range, n);
    } else {
      assert rows[..n] == rows;
    }
  }

  function Identities(keyed: seq<Keyed>): set<(nat, string)> {
    set i | 0 <= i < |keyed| :: (keyed[i].clientId, keyed[i].key)
  }

  lemma {:induction false} NextRow(rows: seq<Row>, range: Range, i: nat, keyed: seq<Keyed>)
    requires i < |rows| && KeyAll(rows[..i], range) == Ok(keyed)
    ensures KeyAll(rows[..i + 1], range)
         == match KeyRow(rows[i], range)
            case Breach(reason) => Breach(reason)
            case Ok(k) =>
              if (k.clientId, k.key) in Identities(keyed) then Breach(DuplicateClientPeriod) else Ok(keyed + [k])
  {
    assert rows[..i + 1][..i] == rows[..i];
    var row := KeyRow(rows[i], range);
    if row.Ok? {
      var k := row.value;
      assert (exists j :: 0 <= j < |keyed| && SameIdentity(keyed[j], k)) <==> (k.clientId, k.key) in Identities(keyed);
    }
  }

  lemma {:induction false} IdentityAdded(keyed: seq<Keyed>, k: Keyed)
    ensures Identities(keyed + [k]) == Identities(keyed) + {(k.clientId, k.key)}
  {
    var longer := keyed + [k];
    assert longer[|keyed|] == k;
    assert forall i :: 0 <= i < |keyed| ==> longer[i] == keyed[i];
  }

  method KeyEachRow(rows: seq<Row>, range: Range) returns (r: Result<seq<Keyed>>)
    ensures r == KeyAll(rows, range)
  {
    var keyed: seq<Keyed>, seen: set<(nat, string)> := [], {};
    for i := 0 to |rows|
      invariant KeyAll(rows[..i], range) == Ok(keyed)
      invariant seen == Identities(keyed)
    {
      var row := KeyRow(rows[i], range);
      NextRow(rows, range, i, keyed);
      if row.Breach? {
        BreachStays(rows, range, i + 1);
        return Breach(row.reason);
      }
      var identity := (row.value.clientId, row.value.key);
      if identity in seen {
        BreachStays(rows, range, i + 1);
        return Breach(DuplicateClientPeriod);
      }
      IdentityAdded(keyed, row.value);
      seen := seen + {identity};
      keyed := keyed + [row.value];
    }
    assert rows[..|rows|] == rows;
    return Ok(keyed);
  }

  method GroupPeriods(keyed: seq<Keyed>) returns (periods: seq<Period>)
    ensures periods == Group(keyed)
  {
    periods := [];
    for i := 0 to |keyed|
      invariant periods == Group(keyed[..i])
    {
      assert keyed[..i + 1][..i] == keyed[..i];
      periods := AddTo(periods, keyed[i]);
    }
    assert keyed[..|keyed|] == keyed;
  }

  method KeyBillingSummaryRows(rows: seq<Row>, range: Range) returns (r: Result<Keying>)
    ensures r == KeyBillingRows(rows, range)
  {
    if !IsCalendarDay(range.fromDay) || !IsCalendarDay(range.toDay) {
      return Breach(RangeInvalid);
    }
    var each := KeyEachRow(rows, range);
    if each.Breach? {
      return Breach(each.reason);
    }
    var periods := GroupPeriods(each.value);
    return Ok(Keying(each.value, periods));
  }
}
