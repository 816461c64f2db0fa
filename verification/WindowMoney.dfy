/** Per-day charges added up over windows of days. */
module WindowMoney {

  type PerDay = int -> int

  /** A client's window: the days from `from` to `to`. */
  datatype Window = Window(client: nat, from: int, to: int)

  predicate Contains(w: Window, n: int) {
    w.from <= n <= w.to
  }

  /** The charges, in cents, of the days lo to hi. */
  function SumDays(perDay: PerDay, lo: int, hi: int): int
    decreases hi - lo
  {
    if hi < lo then 0 else SumDays(perDay, lo, hi - 1) + perDay(hi)
  }

  /** What the windows of one client add up to when each shows the charges of its own days. */
  function ClientTotal(windows: seq<Window>, client: nat, perDay: PerDay): int {
    if windows == [] then 0
    else
      ClientTotal(windows[1..], client, perDay)
      + if windows[0].client == client then SumDays(perDay, windows[0].from, windows[0].to) else 0
  }

  /** How many of the client's windows contain day n. */
  function Covers(windows: seq<Window>, client: nat, n: int): nat {
    if windows == [] then 0
    else Covers(windows[1..], client, n) + if windows[0].client == client && Contains(windows[0], n) then 1 else 0
  }

  function Times(cents: int, k: nat): int {
    if k == 0 then 0 else Times(cents, k - 1) + cents
  }

  lemma {:induction false} TimesUnit(k: nat)
    ensures Times(1, k) == k && Times(0, k) == 0
  {
    if k > 0 {
      TimesUnit(k - 1);
    }
  }

  /** The days lo to hi, each counted as often as it is covered. */
  function Weighted(windows: seq<Window>, client: nat, perDay: PerDay, lo: int, hi: int): int
    decreases hi - lo
  {
    if hi < lo then 0
    else Weighted(windows, client, perDay, lo, hi - 1) + Times(perDay(hi), Covers(windows, client, hi))
  }

  /** The part of the days a to b that falls on lo to hi. */
  function Within(perDay: PerDay, a: int, b: int, lo: int, hi: int): int
    decreases hi - lo
  {
    if hi < lo then 0 else Within(perDay, a, b, lo, hi - 1) + if a <= hi <= b then perDay(hi) else 0
  }

  lemma {:induction false} WithinIsSum(perDay: PerDay, a: int, b: int, lo: int, hi: int)
    requires lo <= a
    ensures b <= hi ==> Within(perDay, a, b, lo, hi) == SumDays(perDay, a, b)
    ensures hi <= b ==> Within(perDay, a, b, lo, hi) == SumDays(perDay, a, hi)
    decreases hi - lo
  {
    if hi >= lo {
      WithinIsSum(perDay, a, b, lo, hi - 1);
    } else {
      assert SumDays(perDay, a, hi) == 0;
    }
  }

  lemma {:induction false} WeightedStep(windows: seq<Window>, client: nat, perDay: PerDay, lo: int, hi: int)
    requires windows != []
    ensures var w := windows[0];
            Weighted(windows, client, perDay, lo, hi)
              == Weighted(windows[1..], client, perDay, lo, hi)
                 + if w.client == client then Within(perDay, w.from, w.to, lo, hi) else 0
    decreases hi - lo
  {
    if hi >= lo {
      WeightedStep(windows, client, perDay, lo, hi - 1);
    }
  }

  predicate AllInside(windows: seq<Window>, lo: int, hi: int) {
    forall i :: 0 <= i < |windows| ==> lo <= windows[i].from && windows[i].to <= hi
  }

  /** Adding up windows is adding up days, each as often as it is covered. */
  lemma {:induction false} TotalIsWeighted(windows: seq<Window>, client: nat, perDay: PerDay, lo: int, hi: int)
    requires AllInside(windows, lo, hi)
    ensures ClientTotal(windows, client, perDay) == Weighted(windows, client, perDay, lo, hi)
    decreases |windows|
  {
    if windows == [] {
      NothingCovered(client, perDay, lo, hi);
    } else {
      TotalIsWeighted(windows[1..], client, perDay, lo, hi);
      WeightedStep(windows, client, perDay, lo, hi);
      WithinIsSum(perDay, windows[0].from, windows[0].to, lo, hi);
    }
  }

  lemma {:induction false} NothingCovered(client: nat, perDay: PerDay, lo: int, hi: int)
    ensures Weighted([], client, perDay, lo, hi) == 0
    decreases hi - lo
  {
    if hi >= lo {
      NothingCovered(client, perDay, lo, hi - 1);
    }
  }

  /** Every day from lo to hi lies in exactly one window of the client. */
  predicate CoversOnce(windows: seq<Window>, client: nat, lo: int, hi: int) {
    forall n :: lo <= n <= hi ==> Covers(windows, client, n) == 1
  }

  lemma {:induction false} WeightedOnce(windows: seq<Window>, client: nat, perDay: PerDay, lo: int, hi: int)
    requires CoversOnce(windows, client, lo, hi)
    ensures Weighted(windows, client, perDay, lo, hi) == SumDays(perDay, lo, hi)
    decreases hi - lo
  {
    if hi >= lo {
      WeightedOnce(windows, client, perDay, lo, hi - 1);
      assert Covers(windows, client, hi) == 1;
      assert Times(perDay(hi), 1) == Times(perDay(hi), 0) + perDay(hi);
    }
  }

  /** Charges of one cent on day n alone. */
  function OnlyOn(n: int): PerDay {
    (m: int) => if m == n then 1 else 0
  }

  lemma {:induction false} OneDay(windows: seq<Window>, client: nat, n: int, lo: int, hi: int)
    requires lo <= n
    ensures SumDays(OnlyOn(n), lo, hi) == if n <= hi then 1 else 0
    ensures Weighted(windows, client, OnlyOn(n), lo, hi) == if n <= hi then Covers(windows, client, n) else 0
    decreases hi - lo
  {
    if hi >= lo {
      OneDay(windows, client, n, lo, hi - 1);
      TimesUnit(Covers(windows, client, hi));
    }
  }

  ghost predicate MoneyIsConserved(windows: seq<Window>, client: nat, lo: int, hi: int) {
    forall perDay: PerDay :: ClientTotal(windows, client, perDay) == SumDays(perDay, lo, hi)
  }

  /** Whatever the charges: windows add up to the client's charges from lo to hi if and only if every
      one of these days is in exactly one of them. */
  lemma {:induction false} ConservedIff(windows: seq<Window>, client: nat, lo: int, hi: int)
    requires AllInside(windows, lo, hi)
    ensures MoneyIsConserved(windows, client, lo, hi) <==> CoversOnce(windows, client, lo, hi)
  {
    if CoversOnce(windows, client, lo, hi) {
      forall perDay: PerDay ensures ClientTotal(windows, client, perDay) == SumDays(perDay, lo, hi) {
        TotalIsWeighted(windows, client, perDay, lo, hi);
        WeightedOnce(windows, client, perDay, lo, hi);
      }
    }
    if MoneyIsConserved(windows, client, lo, hi) {
      forall n | lo <= n <= hi ensures Covers(windows, client, n) == 1 {
        TotalIsWeighted(windows, client, OnlyOn(n), lo, hi);
        OneDay(windows, client, n, lo, hi);
        assert ClientTotal(windows, client, OnlyOn(n)) == SumDays(OnlyOn(n), lo, hi);
      }
    }
  }
}
