/** The private health pool of the readiness route, with the driver's dispatch rule: an idle
    connection, else a closed one, else the connection that has been busy longest, onto which
    the query is pipelined. A connection that stopped answering stays busy for ever, so what
    happens to it between rounds decides whether one stall poisons every later round. */
module HealthPool {

  /** A pool slot: its backend answers, or has gone silent for good. */
  datatype Conn = Answering | Silent

  datatype Pool = Pool(idle: seq<Conn>, closed: seq<Conn>, busy: seq<Conn>)

  /** All connections, next to be used first. */
  function Line(p: Pool): seq<Conn> {
    p.idle + p.closed + p.busy
  }

  function CountSilent(cs: seq<Conn>): nat {
    if cs == [] then 0 else CountSilent(cs[..|cs| - 1]) + (if cs[|cs| - 1].Silent? then 1 else 0)
  }

  function CountTrue(bs: seq<bool>): nat {
    if bs == [] then 0 else CountTrue(bs[..|bs| - 1]) + (if bs[|bs| - 1] then 1 else 0)
  }

  // -- One readiness round -----------------------------------------------------------

  /** Which connection the next query goes to, and the pool without it. */
  function Take(p: Pool): (Conn, Pool)
    requires Line(p) != []
  {
    if p.idle != [] then (p.idle[0], p.(idle := p.idle[1..]))
    else if p.closed != [] then (p.closed[0], p.(closed := p.closed[1..]))
    else (p.busy[0], p.(busy := p.busy[1..]))
  }

  function AfterProbe(c: Conn, stall: bool): Conn {
    if stall then Silent else c
  }

  /** Probes are dispatched in order before any reply arrives. A probe succeeds unless its
      connection is silent; stalls[i] says that the backend goes silent on probe i. */
  function Probe(p: Pool, stall: bool): (Pool, bool)
    requires Line(p) != []
  {
    var (c, q) := Take(p);
    (q.(busy := q.busy + [AfterProbe(c, stall)]), AfterProbe(c, stall).Answering?)
  }

  datatype Round = Round(pool: Pool, ok: seq<bool>)

  function ProbeAll(p: Pool, stalls: seq<bool>): (r: Round)
    requires Line(p) != []
    ensures |r.ok| == |stalls| && |Line(r.pool)| == |Line(p)|
  {
    if stalls == [] then Round(p, [])
    else
      var before := ProbeAll(p, stalls[..|stalls| - 1]);
      var (q, ok) := Probe(before.pool, stalls[|stalls| - 1]);
      Round(q, before.ok + [ok])
  }

  function Keep(cs: seq<Conn>, c: Conn): (ks: seq<Conn>)
    ensures forall i :: 0 <= i < |ks| ==> ks[i] == c
  {
    if cs == [] then []
    else Keep(cs[..|cs| - 1], c) + (if cs[|cs| - 1] == c then [c] else [])
  }

  /** Connections whose query was answered become idle; silent ones stay busy. */
  function Settle(p: Pool): Pool {
    p.(idle := p.idle + Keep(p.busy, Answering), busy := Keep(p.busy, Silent))
  }

  /** Between rounds: n connections, and exactly the silent ones are busy. */
  ghost predicate AtRest(p: Pool, n: nat) {
    && |Line(p)| == n
    && FreeAnswer(p)
    && forall i :: 0 <= i < |p.busy| ==> p.busy[i] == Silent
  }

  predicate FreeAnswer(p: Pool) {
    && (forall i :: 0 <= i < |p.idle| ==> p.idle[i] == Answering)
    && (forall i :: 0 <= i < |p.closed| ==> p.closed[i] == Answering)
  }

  function Healthy(p: Pool): nat {
    |p.idle| + |p.closed|
  }

  // -- The dispatch rule is a rotation --------------------------------------------------

  lemma {:induction false} ProbeRotates(p: Pool, stall: bool)
    requires Line(p) != []
    ensures Line(Probe(p, stall).0) == Line(p)[1..] + [AfterProbe(Line(p)[0], stall)]
    ensures Probe(p, stall).1 <==> AfterProbe(Line(p)[0], stall).Answering?
  {
    var (c, q) := Take(p);
    assert Line(p) == [c] + Line(q);
  }

  function Probed(line: seq<Conn>, stalls: seq<bool>): (s: seq<Conn>)
    requires |stalls| <= |line|
    ensures |s| == |stalls|
  {
    seq(|stalls|, i requires 0 <= i < |stalls| => AfterProbe(line[i], stalls[i]))
  }

  /** After m probes on at least m connections the line is turned by m, and probe i was answered
      by the connection that stood at place i. */
  lemma {:induction false} RoundRotates(p: Pool, stalls: seq<bool>)
    requires Line(p) != [] && |stalls| <= |Line(p)|
    ensures var r, line := ProbeAll(p, stalls), Line(p);
            && Line(r.pool) == line[|stalls|..] + Probed(line, stalls)
            && forall i :: 0 <= i < |stalls| ==> (r.ok[i] <==> Probed(line, stalls)[i].Answering?)
  {
    var line := Line(p);
    if stalls != [] {
      var m := |stalls| - 1;
      RoundRotates(p, stalls[..m]);
      var before := ProbeAll(p, stalls[..m]);
      ProbeRotates(before.pool, stalls[m]);
      ProbedGrows(line, stalls);
      TurnOnce(line, m, Probed(line, stalls[..m]), AfterProbe(line[m], stalls[m]));
    } else {
      assert line[0..] + [] == line;
    }
  }

  lemma {:induction false} ProbedGrows(line: seq<Conn>, stalls: seq<bool>)
    requires 0 < |stalls| <= |line|
    ensures var m := |stalls| - 1;
            Probed(line, stalls) == Probed(line, stalls[..m]) + [AfterProbe(line[m], stalls[m])]
  {
  }

  lemma {:induction false} TurnOnce(line: seq<Conn>, m: nat, probed: seq<Conn>, c: Conn)
    requires m < |line|
    ensures (line[m..] + probed)[0] == line[m]
    ensures (line[m..] + probed)[1..] + [c] == line[m + 1..] + (probed + [c])
  {
  }

  /** In a round of m <= n probes the healthy connections serve the first probes and the silent
      ones swallow the rest: probe i succeeds exactly when i < Healthy(p) and it does not stall. */
  lemma {:induction false} RoundOutcome(p: Pool, stalls: seq<bool>, n: nat)
    requires AtRest(p, n) && 0 < n && |stalls| <= n
    ensures forall i :: 0 <= i < |stalls| ==> (ProbeAll(p, stalls).ok[i] <==> i < Healthy(p) && !stalls[i])
  {
    RoundRotates(p, stalls);
    LineAtRest(p, n);
  }

  lemma {:induction false} LineAtRest(p: Pool, n: nat)
    requires AtRest(p, n)
    ensures forall i :: 0 <= i < n ==> (Line(p)[i].Answering? <==> i < Healthy(p))
  {
    forall i | 0 <= i < n
      ensures Line(p)[i].Answering? <==> i < Healthy(p)
    {
      if i < |p.idle| {
        assert Line(p)[i] == p.idle[i];
      } else if i < Healthy(p) {
        assert Line(p)[i] == p.closed[i - |p.idle|];
      } else {
        assert Line(p)[i] == p.busy[i - Healthy(p)];
      }
    }
  }

  // -- Counting silent connections ---------------------------------------------------------

  lemma {:induction false} CountSilentAppends(a: seq<Conn>, b: seq<Conn>)
    ensures CountSilent(a + b) == CountSilent(a) + CountSilent(b)
  {
    if b == [] {
      assert a + b == a;
    } else {
      var m := |b| - 1;
      assert (a + b)[..|a + b| - 1] == a + b[..m];
      CountSilentAppends(a, b[..m]);
    }
  }

  lemma {:induction false} CountUniform(cs: seq<Conn>, c: Conn)
    requires forall i :: 0 <= i < |cs| ==> cs[i] == c
    ensures CountSilent(cs) == if c.Silent? then |cs| else 0
  {
    if cs != [] {
      CountUniform(cs[..|cs| - 1], c);
    }
  }

  lemma {:induction false} KeepCounts(cs: seq<Conn>)
    ensures |Keep(cs, Silent)| == CountSilent(cs)
    ensures |Keep(cs, Answering)| + |Keep(cs, Silent)| == |cs|
  {
    if cs != [] {
      KeepCounts(cs[..|cs| - 1]);
    }
  }

  lemma {:induction false} CountAtRest(p: Pool, n: nat)
    requires AtRest(p, n)
    ensures CountSilent(Line(p)) == |p.busy| == n - Healthy(p)
  {
    CountUniform(p.idle, Answering);
    CountUniform(p.closed, Answering);
    CountUniform(p.busy, Silent);
    CountSilentAppends(p.idle, p.closed);
    CountSilentAppends(p.idle + p.closed, p.busy);
  }

  /** How many connections a round leaves silent: those it found, and the stalls it met. */
  lemma {:induction false} CountProbed(line: seq<Conn>, stalls: seq<bool>, h: nat)
    requires |stalls| <= |line|
    requires forall i :: 0 <= i < |line| ==> (line[i].Answering? <==> i < h)
    ensures CountSilent(Probed(line, stalls))
         == CountSilent(line[..|stalls|]) + CountTrue(stalls[..Min(|stalls|, h)])
  {
    if stalls != [] {
      var m := |stalls| - 1;
      CountProbed(line, stalls[..m], h);
      var probed := Probed(line, stalls);
      assert probed[..m] == Probed(line, stalls[..m]);
      assert line[..m + 1][..m] == line[..m];
      var k, k' := Min(m + 1, h), Min(m, h);
      assert stalls[..m][..k'] == stalls[..k'];
      if h > m {
        assert stalls[..k][..m] == stalls[..m];
      }
    }
  }

  function Min(a: nat, b: nat): nat {
    if a < b then a else b
  }

  lemma {:induction false} TakeKeepsHealthy(p: Pool, stalls: seq<bool>)
    requires Line(p) != []
    requires FreeAnswer(p)
    ensures FreeAnswer(ProbeAll(p, stalls).pool)
  {
    if stalls != [] {
      TakeKeepsHealthy(p, stalls[..|stalls| - 1]);
    }
  }

  lemma {:induction false} CountRound(p: Pool, stalls: seq<bool>, n: nat)
    requires AtRest(p, n) && 0 < n && |stalls| <= n
    ensures CountSilent(Line(ProbeAll(p, stalls).pool))
         == |p.busy| + CountTrue(stalls[..Min(|stalls|, Healthy(p))])
  {
    var line, m := Line(p), |stalls|;
    RoundRotates(p, stalls);
    LineAtRest(p, n);
    CountAtRest(p, n);
    CountProbed(line, stalls, Healthy(p));
    CountSilentAppends(line[m..], Probed(line, stalls));
    CountSilentAppends(line[..m], line[m..]);
    assert line == line[..m] + line[m..];
  }

  lemma {:induction false} SettleCounts(r: Pool)
    requires FreeAnswer(r)
    ensures AtRest(Settle(r), |Line(r)|) && |Settle(r).busy| == CountSilent(Line(r))
  {
    KeepCounts(r.busy);
    CountUniform(r.idle, Answering);
    CountUniform(r.closed, Answering);
    CountSilentAppends(r.idle, r.closed);
    CountSilentAppends(r.idle + r.closed, r.busy);
  }

  /** Settling a round ends at rest, with one healthy connection less for each stall that reached
      a healthy connection. */
  lemma {:induction false} RoundRests(p: Pool, stalls: seq<bool>, n: nat)
    requires AtRest(p, n) && 0 < n && |stalls| <= n
    ensures var r := ProbeAll(p, stalls).pool;
            && AtRest(Settle(r), n)
            && Healthy(Settle(r)) == Healthy(p) - CountTrue(stalls[..Min(|stalls|, Healthy(p))])
            && CountSilent(Line(r)) == n - Healthy(Settle(r))
  {
    TakeKeepsHealthy(p, stalls);
    SettleCounts(ProbeAll(p, stalls).pool);
    CountRound(p, stalls, n);
  }

  // -- Retaining silent connections ------------------------------------------------------------

  function RetainedAfter(p: Pool, rounds: seq<seq<bool>>): Pool
    requires Line(p) != []
    decreases |rounds|
  {
    if rounds == [] then p
    else
      var r := ProbeAll(p, rounds[0]).pool;
      KeepCounts(r.busy);
      RetainedAfter(Settle(r), rounds[1..])
  }

  /** A retained pool never heals: after any number of stall-free rounds a stall-free round of m
      probes loses exactly those numbered n - w and up, w being the silent connections kept. */
  lemma {:induction false} RetentionNeverHeals(p: Pool, rounds: seq<seq<bool>>, probe: seq<bool>, n: nat)
    requires AtRest(p, n) && 0 < n && |probe| <= n && CountTrue(probe) == 0
    requires forall k :: 0 <= k < |rounds| ==> |rounds[k]| <= n && CountTrue(rounds[k]) == 0
    ensures var q, w := RetainedAfter(p, rounds), |p.busy|;
            && AtRest(q, n) && |q.busy| == w
            && forall i :: 0 <= i < |probe| ==> (ProbeAll(q, probe).ok[i] <==> i < n - w)
    decreases |rounds|
  {
    if rounds == [] {
      NoneTrue(probe);
      RoundOutcome(p, probe, n);
    } else {
      RoundRests(p, rounds[0], n);
      NoneTrue(rounds[0]);
      AllFalse(rounds[0][..Min(|rounds[0]|, Healthy(p))]);
      RetentionNeverHeals(Settle(ProbeAll(p, rounds[0]).pool), rounds[1..], probe, n);
    }
  }

  lemma {:induction false} NoneTrue(bs: seq<bool>)
    requires CountTrue(bs) == 0
    ensures forall i :: 0 <= i < |bs| ==> !bs[i]
  {
    if bs != [] {
      NoneTrue(bs[..|bs| - 1]);
    }
  }

  lemma {:induction false} AllFalse(bs: seq<bool>)
    requires forall i :: 0 <= i < |bs| ==> !bs[i]
    ensures CountTrue(bs) == 0
  {
    if bs != [] {
      AllFalse(bs[..|bs| - 1]);
    }
  }

  // -- Evicting the pool ---------------------------------------------------------------------------

  /** createHealthPool: n slots, none connected yet. */
  function FreshPool(n: nat): (p: Pool)
    ensures |Line(p)| == n && AtRest(p, n) && Healthy(p) == n
  {
    Pool([], seq(n, i => Answering), [])
  }

  /** The route over its life: its pool, how many connections the server has silenced and how many
      of those the client has closed. */
  datatype Monitor = Monitor(pool: Pool, silenced: nat, closed: nat)

  predicate AllOk(ok: seq<bool>) {
    forall i :: 0 <= i < |ok| ==> ok[i]
  }

  function Newly(before: Pool, after: Pool): nat {
    var a, b := CountSilent(Line(after)), CountSilent(Line(before));
    if a > b then a - b else 0
  }

  /** checkDeepReadiness: after every probe has settled, a round with a timeout replaces the pool
      and destroys every connection of the retired one. */
  function Check(m: Monitor, stalls: seq<bool>, n: nat): (c: (Monitor, seq<bool>))
    requires Line(m.pool) != []
    ensures n > 0 ==> Line(c.0.pool) != []
  {
    var r := ProbeAll(m.pool, stalls);
    var silenced := m.silenced + Newly(m.pool, r.pool);
    KeepCounts(r.pool.busy);
    if AllOk(r.ok) then (Monitor(Settle(r.pool), silenced, m.closed), r.ok)
    else (Monitor(FreshPool(n), silenced, m.closed + CountSilent(Line(r.pool))), r.ok)
  }

  ghost predicate Green(m: Monitor, n: nat) {
    AtRest(m.pool, n) && m.pool.busy == [] && m.closed == m.silenced
  }

  /** With eviction a probe fails only if it stalls itself, and every connection silenced so far
      has been closed by the time the round returns. */
  lemma {:induction false} EvictionHeals(m: Monitor, stalls: seq<bool>, n: nat)
    requires Green(m, n) && 0 < n && |stalls| <= n
    ensures var (m', ok) := Check(m, stalls, n);
            && Green(m', n)
            && m'.silenced == m.silenced + CountTrue(stalls)
            && |ok| == |stalls| && forall i :: 0 <= i < |stalls| ==> (ok[i] <==> !stalls[i])
  {
    var r := ProbeAll(m.pool, stalls);
    assert Healthy(m.pool) == n;
    RoundOutcome(m.pool, stalls, n);
    RoundRests(m.pool, stalls, n);
    assert stalls[..|stalls|] == stalls;
    CountAtRest(m.pool, n);
    if AllOk(r.ok) {
      AllFalse(stalls);
    }
  }

  function CheckAll(m: Monitor, rounds: seq<seq<bool>>, n: nat): Monitor
    requires Line(m.pool) != [] && n > 0
    decreases |rounds|
  {
    if rounds == [] then m else CheckAll(Check(m, rounds[0], n).0, rounds[1..], n)
  }

  function StallsIn(rounds: seq<seq<bool>>): nat {
    if rounds == [] then 0 else CountTrue(rounds[0]) + StallsIn(rounds[1..])
  }

  /** Over any history of rounds, every stall closes its connection and no other is closed, and the
      next stall-free round is green. */
  lemma {:induction false} EveryHistoryHeals(m: Monitor, rounds: seq<seq<bool>>, next: seq<bool>, n: nat)
    requires Green(m, n) && 0 < n && |next| <= n && CountTrue(next) == 0
    requires forall k :: 0 <= k < |rounds| ==> |rounds[k]| <= n
    ensures var m' := CheckAll(m, rounds, n);
            && Green(m', n) && AllOk(Check(m', next, n).1)
            && m'.closed == m.closed + StallsIn(rounds)
    decreases |rounds|
  {
    if rounds == [] {
      EvictionHeals(m, next, n);
      NoneTrue(next);
    } else {
      EvictionHeals(m, rounds[0], n);
      EveryHistoryHeals(Check(m, rounds[0], n).0, rounds[1..], next, n);
    }
  }

  // -- The route -------------------------------------------------------------------------------------

  /** The module state of the readiness route, with the server's count of silenced connections. */
  class Readiness {
    var idle: seq<Conn>
    var unopened: seq<Conn>
    var busy: seq<Conn>
    var silenced: nat
    var closed: nat
    const max: nat

    function PoolState(): Pool
      reads this
    {
      Pool(idle, unopened, busy)
    }

    function State(): Monitor
      reads this
    {
      Monitor(PoolState(), silenced, closed)
    }

    constructor (n: nat)
      ensures max == n && State() == Monitor(FreshPool(n), 0, 0)
    {
      max := n;
      idle, unopened, busy, silenced, closed := [], FreshPool(n).closed, [], 0, 0;
    }

    /** Hand the next connection to a query. */
    method TakeConnection() returns (c: Conn)
      requires Line(PoolState()) != []
      modifies this`idle, this`unopened, this`busy
      ensures (c, PoolState()) == Take(old(PoolState()))
    {
      if idle != [] {
        c := idle[0];
        idle := idle[1..];
      } else if unopened != [] {
        c := unopened[0];
        unopened := unopened[1..];
      } else {
        c := busy[0];
        busy := busy[1..];
      }
    }

    method RunProbe(stall: bool) returns (ok: bool)
      requires Line(PoolState()) != []
      modifies this`idle, this`unopened, this`busy
      ensures (PoolState(), ok) == Probe(old(PoolState()), stall)
      ensures Line(PoolState()) != []
    {
      var c := TakeConnection();
      c := AfterProbe(c, stall);
      busy := busy + [c];
      ok := c.Answering?;
    }

    /** Dispatch every probe in order. */
    method RunProbes(stalls: seq<bool>) returns (ok: seq<bool>)
      requires Line(PoolState()) != []
      modifies this`idle, this`unopened, this`busy
      ensures Round(PoolState(), ok) == ProbeAll(old(PoolState()), stalls)
    {
      ghost var start := PoolState();
      ok := [];
      for i := 0 to |stalls|
        invariant Line(PoolState()) != []
        invariant ProbeAll(start, stalls[..i]) == Round(PoolState(), ok)
      {
        assert stalls[..i + 1][..i] == stalls[..i];
        var answered := RunProbe(stalls[i]);
        ok := ok + [answered];
      }
      assert stalls[..|stalls|] == stalls;
    }

    /** One readiness request: probe, let every probe settle, and replace the pool if any of them
        timed out. */
    method CheckDeepReadiness(stalls: seq<bool>) returns (ok: seq<bool>)
      requires Line(PoolState()) != []
      modifies this
      ensures (State(), ok) == Check(old(State()), stalls, max)
    {
      var before := PoolState();
      ok := RunProbes(stalls);
      var after := PoolState();
      assert Round(after, ok) == ProbeAll(before, stalls);
      silenced := silenced + Newly(before, after);
      if AllOk(ok) {
        SettleProbes();
      } else {
        ResetHealthPool();
      }
    }

    method SettleProbes()
      modifies this`idle, this`busy
      ensures PoolState() == Settle(old(PoolState()))
    {
      idle, busy := idle + Keep(busy, Answering), Keep(busy, Silent);
    }

    /** The retired pool's silent connections are closed by the client. */
    method ResetHealthPool()
      modifies this
      ensures State() == Monitor(FreshPool(max), old(silenced),
                                 old(closed) + CountSilent(Line(old(PoolState()))))
    {
      closed := closed + CountSilent(idle + unopened + busy);
      idle, unopened, busy := [], FreshPool(max).closed, [];
    }
  }
}
