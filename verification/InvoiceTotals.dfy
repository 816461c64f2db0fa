/** From keyed billing rows to batch requests: what the keying produces and what the batch admits. */
module InvoiceTotals {
  import C = BatchChunks
  import B = BillingKeys
  import opened Calendar
  import opened CalendarDays
  import opened Common

  /** A period as the batch sees it. */
  datatype Slot = Slot(key: string, dateFrom: string, dateTo: string)

  /** A day that survives the ISO parser: any real day but those of the year 0. */
  predicate IsDay(s: string) {
    Shaped(s) && Parse(s).year != 0 && Real(Parse(s))
  }

  predicate SlotOk(slot: Slot) {
    && slot.key == B.KeyOf(slot.dateFrom, slot.dateTo)
    && IsDay(slot.dateFrom) && IsDay(slot.dateTo) && !Less(slot.dateTo, slot.dateFrom)
  }

  /** The days accepted are the written days of the years 1 to 9999. */
  lemma {:induction false} IsDayIff(s: string)
    ensures IsDay(s) <==> exists d: Date :: Real(d) && 1 <= d.year <= 9999 && s == DayText(d)
  {
    if IsDay(s) {
      TextOfParse(s);
      assert Real(Parse(s)) && 1 <= Parse(s).year <= 9999 && s == DayText(Parse(s));
    }
  }

  /** A slot is accepted exactly when it is two such days, not in reverse, and its key is the two with a
      bar between them. */
  lemma {:induction false} SlotOkIff(slot: Slot)
    ensures SlotOk(slot)
       <==> exists a: Date, b: Date :: Real(a) && Real(b) && 1 <= a.year <= 9999 && 1 <= b.year <= 9999
              && !Before(b, a) && slot == Slot(DayText(a) + "|" + DayText(b), DayText(a), DayText(b))
  {
    if SlotOk(slot) {
      IsDayIff(slot.dateFrom);
      IsDayIff(slot.dateTo);
      var a: Date :| Real(a) && 1 <= a.year <= 9999 && slot.dateFrom == DayText(a);
      var b: Date :| Real(b) && 1 <= b.year <= 9999 && slot.dateTo == DayText(b);
      LessIsBefore(slot.dateTo, slot.dateFrom);
      assert !Before(b, a) && slot == Slot(DayText(a) + "|" + DayText(b), DayText(a), DayText(b));
    }
    if a: Date, b: Date :|
      && Real(a) && Real(b) && 1 <= a.year <= 9999 && 1 <= b.year <= 9999 && !Before(b, a)
      && slot == Slot(DayText(a) + "|" + DayText(b), DayText(a), DayText(b))
    {
      LessIsBefore(slot.dateTo, slot.dateFrom);
    }
  }

  function PieceOf(p: B.Period): C.Piece<Slot> {
    C.Piece(Slot(p.key, p.dateFrom, p.dateTo), p.clientIds)
  }

  function Pieces(periods: seq<B.Period>): (r: seq<C.Piece<Slot>>)
    ensures |r| == |periods| && forall i :: 0 <= i < |periods| ==> r[i] == PieceOf(periods[i])
  {
    seq(|periods|, i requires 0 <= i < |periods| => PieceOf(periods[i]))
  }

  lemma {:induction false} KeysAt(periods: seq<B.Period>, i: nat)
    requires i < |periods|
    ensures |B.Keys(periods)| == |periods| && B.Keys(periods)[i] == periods[i].key
    decreases |periods|
  {
    if i > 0 {
      KeysAt(periods[1..], i - 1);
    } else if |periods| > 1 {
      KeysAt(periods[1..], 0);
    }
  }

  lemma {:induction false} LookupAt(periods: seq<B.Period>, i: nat)
    requires i < |periods| && NoRepeats(B.Keys(periods))
    ensures B.Lookup(periods, periods[i].key) == Some(periods[i])
    decreases |periods|
  {
    KeysAt(periods, i);
    KeysAt(periods, 0);
    if i > 0 {
      assert B.Keys(periods)[1..] == B.Keys(periods[1..]);
      LookupAt(periods[1..], i - 1);
    }
  }

  lemma {:induction false} ClientOf(keyed: seq<B.Keyed>, key: string, j: nat) returns (i: nat)
    requires j < |B.ClientsOf(keyed, key)|
    ensures i < |keyed| && keyed[i].key == key && keyed[i].clientId == B.ClientsOf(keyed, key)[j]
    decreases |keyed|
  {
    var n := |keyed| - 1;
    if j < |B.ClientsOf(keyed[..n], key)| {
      i := ClientOf(keyed[..n], key, j);
    } else {
      i := n;
    }
  }

  predicate DistinctIdentities(keyed: seq<B.Keyed>) {
    forall i, j :: 0 <= i < j < |keyed| ==> !B.SameIdentity(keyed[i], keyed[j])
  }

  lemma {:induction false} ClientsDoNotRepeat(keyed: seq<B.Keyed>, key: string)
    requires DistinctIdentities(keyed)
    ensures NoRepeats(B.ClientsOf(keyed, key))
    decreases |keyed|
  {
    if keyed != [] {
      var n := |keyed| - 1;
      var front := B.ClientsOf(keyed[..n], key);
      ClientsDoNotRepeat(keyed[..n], key);
      if keyed[n].key == key {
        forall j | 0 <= j < |front| ensures front[j] != keyed[n].clientId {
          var i := ClientOf(keyed[..n], key, j);
          assert !B.SameIdentity(keyed[i], keyed[n]);
        }
      }
    }
  }

  lemma {:induction false} GroupAt(keyed: seq<B.Keyed>, i: nat)
    requires B.AllValid(keyed) && i < |B.Group(keyed)|
    ensures var p := B.Group(keyed)[i];
            && |p.key| == 21 && p.dateFrom == p.key[..10] && p.dateTo == p.key[11..]
            && p.clientIds == B.ClientsOf(keyed, p.key) && p.clientIds != []
  {
    var p := B.Group(keyed)[i];
    B.GroupIsByWindow(keyed, p.key);
    LookupAt(B.Group(keyed), i);
  }

  lemma {:induction false} PeriodIsOk(keyed: seq<B.Keyed>, i: nat)
    requires B.AllValid(keyed) && DistinctIdentities(keyed) && i < |B.Group(keyed)|
    ensures C.PeriodOk(PieceOf(B.Group(keyed)[i]), SlotOk)
  {
    var p := B.Group(keyed)[i];
    GroupAt(keyed, i);
    ClientsDoNotRepeat(keyed, p.key);
    var j := ClientOf(keyed, p.key, 0);
    assert B.ValidKeyed(keyed[j]);
    B.ValidKeyShowsWindow(keyed[j]);
    CalendarDayIff(p.dateFrom);
    CalendarDayIff(p.dateTo);
  }

  predicate IdsFit(keyed: seq<B.Keyed>) {
    forall i :: 0 <= i < |keyed| ==> 1 <= keyed[i].clientId <= 2147483647
  }

  lemma {:induction false} EveryClientIsGrouped(keyed: seq<B.Keyed>, i: nat)
    requires i < |keyed|
    ensures keyed[i].clientId in B.ClientsOf(keyed, keyed[i].key)
    decreases |keyed|
  {
    if i < |keyed| - 1 {
      EveryClientIsGrouped(keyed[..|keyed| - 1], i);
    }
  }

  lemma {:induction false} LookupIsAt(periods: seq<B.Period>, key: string) returns (i: nat)
    requires B.Lookup(periods, key).Some?
    ensures i < |periods| && B.Lookup(periods, key) == Some(periods[i])
    decreases |periods|
  {
    if periods[0].key == key {
      i := 0;
    } else {
      i := LookupIsAt(periods[1..], key);
      i := i + 1;
    }
  }

  /** Everything the keying produces passes the batch's own checks, exactly when no client id exceeds
      the database's 32-bit range; beyond it the batch refuses what the single calls accept. */
  lemma {:induction false} KeyedPeriodsAreAdmittedIff(keyed: seq<B.Keyed>)
    requires B.AllValid(keyed) && DistinctIdentities(keyed)
    ensures C.InputOk(Pieces(B.Group(keyed)), SlotOk) <==> IdsFit(keyed)
  {
    var periods := B.Group(keyed);
    forall i | 0 <= i < |periods| ensures C.PeriodOk(PieceOf(periods[i]), SlotOk) {
      PeriodIsOk(keyed, i);
    }
    if IdsFit(keyed) {
      forall i | 0 <= i < |periods| ensures C.IdsOk(periods[i].clientIds) {
        GroupAt(keyed, i);
        forall j | 0 <= j < |periods[i].clientIds| ensures C.IdOk(periods[i].clientIds[j]) {
          var k := ClientOf(keyed, periods[i].key, j);
        }
      }
    } else {
      var k :| 0 <= k < |keyed| && !C.IdOk(keyed[k].clientId);
      EveryClientIsGrouped(keyed, k);
      B.GroupIsByWindow(keyed, keyed[k].key);
      var i := LookupIsAt(periods, keyed[k].key);
      var j :| 0 <= j < |periods[i].clientIds| && periods[i].clientIds[j] == keyed[k].clientId;
      assert !C.IdsOk(periods[i].clientIds);
      assert !C.Admitted(Pieces(periods)[i], SlotOk);
    }
  }
}
