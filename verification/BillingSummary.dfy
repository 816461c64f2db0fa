/** The billing summary from the read model's rows to its footer, through the batched upstream calls. */
module BillingSummary {
  import opened BatchChunks
  import opened CalendarDays
  import opened Common
  import opened InvoiceTotals
  import opened WindowMoney
  import B = BillingKeys
  import T = TotalsBatch

  // -- What is asked for ---------------------------------------------------------------------------

  function SlotOf(k: B.Keyed): Slot {
    Slot(k.key, k.dateFrom, k.dateTo)
  }

  /** The pairs that the keyed rows need. */
  function Needed(keyed: seq<B.Keyed>): set<Ask<Slot>> {
    set i | 0 <= i < |keyed| :: Ask(SlotOf(keyed[i]), keyed[i].clientId)
  }

  lemma {:induction false} AskedIsNeeded(keyed: seq<B.Keyed>, p: Piece<Slot>, id: nat)
    requires B.AllValid(keyed) && p in Pieces(B.Group(keyed)) && id in p.ids
    ensures Ask(p.key, id) in Needed(keyed)
  {
    var periods := B.Group(keyed);
    var i :| 0 <= i < |periods| && InvoiceTotals.PieceOf(periods[i]) == p;
    var j :| 0 <= j < |p.ids| && p.ids[j] == id;
    GroupAt(keyed, i);
    var m := ClientOf(keyed, periods[i].key, j);
    assert B.ValidKeyed(keyed[m]);
    B.ValidKeyShowsWindow(keyed[m]);
    assert Ask(SlotOf(keyed[m]), keyed[m].clientId) == Ask(p.key, id);
  }

  lemma {:induction false} NeededIsAsked(keyed: seq<B.Keyed>, m: nat)
    requires B.AllValid(keyed) && m < |keyed|
    ensures exists p :: p in Pieces(B.Group(keyed)) && p.key == SlotOf(keyed[m]) && keyed[m].clientId in p.ids
  {
    var periods, k := B.Group(keyed), keyed[m];
    assert B.ValidKeyed(k);
    B.ValidKeyShowsWindow(k);
    EveryClientIsGrouped(keyed, m);
    B.GroupIsByWindow(keyed, k.key);
    var i := LookupIsAt(periods, k.key);
    assert Pieces(periods)[i] == InvoiceTotals.PieceOf(periods[i]);
    assert Pieces(periods)[i] in Pieces(periods);
  }

  /** The requests ask for exactly the pairs that the rows need. */
  lemma {:induction false} AsksAreNeeds(keyed: seq<B.Keyed>)
    requires B.AllValid(keyed)
    ensures T.ChunkSet(Pieces(B.Group(keyed))) == Needed(keyed)
  {
    var chunk := Pieces(B.Group(keyed));
    forall a | a in T.ChunkSet(chunk) ensures a in Needed(keyed) {
      var p :| p in chunk && a in T.PieceSet(p);
      AskedIsNeeded(keyed, p, a.id);
    }
    forall a | a in Needed(keyed) ensures a in T.ChunkSet(chunk) {
      var m :| 0 <= m < |keyed| && a == Ask(SlotOf(keyed[m]), keyed[m].clientId);
      NeededIsAsked(keyed, m);
      var p :| p in chunk && p.key == SlotOf(keyed[m]) && keyed[m].clientId in p.ids;
      assert a in T.PieceSet(p);
    }
  }

  // -- What comes back --------------------------------------------------------------------------------

  /** The window that a key names. */
  function SlotFor(key: string): Slot {
    if |key| == 21 then Slot(key, key[..10], key[11..]) else Slot(key, "", "")
  }

  /** The totals by the key of their window, as the rows look them up. */
  function ByKey(totals: T.Totals<Slot, int>): B.Canonical<int> {
    map s | s in totals && s == SlotFor(s.key) :: s.key := totals[s]
  }

  /** What a client's charges come to over a window. */
  function Due(charges: nat -> PerDay): T.Truth<Slot, int> {
    (s: Slot, id: nat) =>
      if IsCalendarDay(s.dateFrom) && IsCalendarDay(s.dateTo)
      then SumDays(charges(id), Num(s.dateFrom), Num(s.dateTo)) else 0
  }

  lemma {:induction false} FoundByKey(k: B.Keyed, totals: T.Totals<Slot, int>)
    requires B.ValidKeyed(k) && SlotOf(k) in totals
    ensures k.key in ByKey(totals) && ByKey(totals)[k.key] == totals[SlotOf(k)]
  {
    B.ValidKeyShowsWindow(k);
    assert SlotOf(k) == SlotFor(k.key);
  }

  lemma {:induction false} DueIsHeld(
    asked: set<Ask<Slot>>, totals: T.Totals<Slot, int>, charges: nat -> PerDay, slot: Slot, id: nat)
    requires T.IsAnswer(totals, asked, Due(charges)) && Ask(slot, id) in asked
    ensures slot in totals && id in totals[slot] && totals[slot][id] == Due(charges)(slot, id)
  {
    T.HoldsMeans(totals, asked);
    assert Ask(slot, id).key in totals && Ask(slot, id).id in totals[slot];
  }

  lemma {:induction false} TotalsAreHonest(keyed: seq<B.Keyed>, totals: T.Totals<Slot, int>, charges: nat -> PerDay)
    requires B.AllValid(keyed) && T.IsAnswer(totals, Needed(keyed), Due(charges))
    ensures B.Honest(ByKey(totals), keyed, charges)
  {
    forall i | 0 <= i < |keyed|
      ensures var k := keyed[i];
              && B.Answered(k, ByKey(totals))
              && ByKey(totals)[k.key][k.clientId] == SumDays(charges(k.clientId), Num(k.dateFrom), Num(k.dateTo))
    {
      var k := keyed[i];
      assert B.ValidKeyed(k) && Ask(SlotOf(k), k.clientId) in Needed(keyed);
      DueIsHeld(Needed(keyed), totals, charges, SlotOf(k), k.clientId);
      FoundByKey(k, totals);
    }
  }

  lemma {:induction false} PiecesAreDistinct(keyed: seq<B.Keyed>)
    requires B.AllValid(keyed)
    ensures DistinctKeys(Pieces(B.Group(keyed)))
  {
    var periods := B.Group(keyed);
    B.GroupIsByWindow(keyed, "");
    forall i, j | 0 <= i < j < |periods| ensures Pieces(periods)[i].key != Pieces(periods)[j].key {
      KeysAt(periods, i);
      KeysAt(periods, j);
    }
  }

  /** Complete and truthful replies answer exactly what the rows need. */
  lemma {:induction false} BatchAnswers(
    keyed: seq<B.Keyed>, url: UrlLength<Slot>, replies: T.Replies<Slot, int>, charges: nat -> PerDay)
    requires B.AllValid(keyed) && Requests(Pieces(B.Group(keyed)), SlotOk, url).Some?
    requires T.AllHonest(replies, Due(charges))
    requires var chunks := Requests(Pieces(B.Group(keyed)), SlotOk, url).value;
             T.AllComplete(chunks, replies, |chunks|)
    ensures var r := T.Fetch(Requests(Pieces(B.Group(keyed)), SlotOk, url).value, replies);
            r.Ok? && T.IsAnswer(r.value, Needed(keyed), Due(charges))
  {
    var pieces := Pieces(B.Group(keyed));
    var chunks := Requests(pieces, SlotOk, url).value;
    PiecesAreDistinct(keyed);
    forall i | 0 <= i < |pieces| ensures T.TidyPiece(pieces[i]) {
      assert Admitted(pieces[i], SlotOk);
    }
    T.AsksDoNotRepeat(pieces);
    AsksAreInRuns(pieces);
    ChunksCarryEveryPair(AsksOf(pieces), url);
    T.CutsAreSeparate(chunks, url);
    T.FetchIff(chunks, replies);
    T.GatheredTotalsAreTruthful(chunks, replies, |chunks|, Due(charges));
    T.AskedByIsAsks(chunks, |chunks|);
    assert chunks[..|chunks|] == chunks;
    T.AsksOfIsChunkSet(pieces);
    AsksAreNeeds(keyed);
  }

  // -- From the rows to the footer -----------------------------------------------------------------------

  /** What the summary is for. If the rows are keyed and the batched calls answer completely and
      truthfully, every row finds its totals, and the footer of a client whose labels tile the selected
      range is what the client owes for exactly that range. */
  lemma {:induction false} SummaryShowsRangeMoney(
    rows: seq<B.Row>, range: B.Range, url: UrlLength<Slot>, replies: T.Replies<Slot, int>,
    charges: nat -> PerDay, client: nat, shown: seq<(B.Row, int)>)
    requires B.KeyBillingRows(rows, range).Ok?
    requires var keyed := B.KeyBillingRows(rows, range).value.keyed;
             && Requests(Pieces(B.Group(keyed)), SlotOk, url).Some?
             && T.AllHonest(replies, Due(charges))
             && var chunks := Requests(Pieces(B.Group(keyed)), SlotOk, url).value;
                T.AllComplete(chunks, replies, |chunks|)
    requires B.AllWellFormed(rows) && B.LabelsTile(rows, client, range)
    ensures var keyed := B.KeyBillingRows(rows, range).value.keyed;
            var r := T.Fetch(Requests(Pieces(B.Group(keyed)), SlotOk, url).value, replies);
            && r.Ok?
            && (forall i :: 0 <= i < |keyed| ==> B.Answered(keyed[i], ByKey(r.value)))
            && (B.Assigned(keyed, ByKey(r.value), shown) ==>
                  B.FooterOf(shown, client) == SumDays(charges(client), Num(range.fromDay), Num(range.toDay)))
  {
    var keyed := B.KeyBillingRows(rows, range).value.keyed;
    B.KeyedInOrder(rows, range, keyed);
    B.ClampConservesMoneyIff(rows, range, keyed, client);
    BatchAnswers(keyed, url, replies, charges);
    var totals := T.Fetch(Requests(Pieces(B.Group(keyed)), SlotOk, url).value, replies).value;
    TotalsAreHonest(keyed, totals, charges);
    if B.Assigned(keyed, ByKey(totals), shown) {
      B.FooterIsRangeMoney(rows, range, keyed, ByKey(totals), shown, client, charges);
    }
  }
}
