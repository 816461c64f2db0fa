/** Cutting the requested (period, client) pairs into batch requests of bounded size. What a period
    is does not matter here, only which periods are equal. */
module BatchChunks {
  import opened Common

  /** One period, with clients to ask for: an entry of the input as well as of a request. */
  datatype Piece<K> = Piece(key: K, ids: seq<nat>)
  type Chunk<K> = seq<Piece<K>>

  const MAX_PERIODS: nat := 8
  const MAX_IDS: nat := 200
  const MAX_URL: nat := 7500
  const MAX_ID: nat := 2147483647

  /** How long the request URL of a chunk is. Nothing is assumed about it unless said. */
  type UrlLength<!K> = Chunk<K> -> nat

  // -- The check of the input -------------------------------------------------------------------

  predicate IdOk(id: nat) {
    0 < id <= MAX_ID
  }

  predicate IdsOk(ids: seq<nat>) {
    forall j :: 0 <= j < |ids| ==> IdOk(ids[j])
  }

  /** `valid` is the check of the period itself. */
  predicate PeriodOk<K>(p: Piece<K>, valid: K -> bool) {
    valid(p.key) && p.ids != [] && NoRepeats(p.ids)
  }

  predicate Admitted<K>(p: Piece<K>, valid: K -> bool) {
    PeriodOk(p, valid) && IdsOk(p.ids)
  }

  predicate InputOk<K>(periods: seq<Piece<K>>, valid: K -> bool) {
    forall i :: 0 <= i < |periods| ==> Admitted(periods[i], valid)
  }

  // -- Greedy chunks ---------------------------------------------------------------------------------

  /** A request for one client of one period. */
  datatype Ask<K> = Ask(key: K, id: nat)

  function Single<K(==)>(a: Ask<K>): Chunk<K> {
    [Piece(a.key, [a.id])]
  }

  /** Into the piece of its key, or as a new piece at the end. */
  function Insert<K(==)>(chunk: Chunk<K>, a: Ask<K>): Chunk<K> {
    if chunk == [] then Single(a)
    else if chunk[0].key == a.key then [chunk[0].(ids := chunk[0].ids + [a.id])] + chunk[1..]
    else [chunk[0]] + Insert(chunk[1..], a)
  }

  predicate Fits<K(==)>(chunk: Chunk<K>, url: UrlLength<K>) {
    && |chunk| <= MAX_PERIODS
    && (forall i :: 0 <= i < |chunk| ==> |chunk[i].ids| <= MAX_IDS)
    && url(chunk) <= MAX_URL
  }

  datatype Cutting<K> = Cut(done: seq<Chunk<K>>, pending: Chunk<K>) | TooLong

  function Take<K(==)>(cutting: Cutting<K>, a: Ask<K>, url: UrlLength<K>): Cutting<K>
    requires cutting.Cut?
  {
    var candidate := Insert(cutting.pending, a);
    if Fits(candidate, url) then Cut(cutting.done, candidate)
    else if url(Single(a)) > MAX_URL then TooLong
    else Cut(cutting.done + (if cutting.pending != [] then [cutting.pending] else []), Single(a))
  }

  type Step<!K> = (Cutting<K>, Ask<K>) -> Cutting<K>

  function TakeWith<K(==)>(url: UrlLength<K>): Step<K> {
    (cutting: Cutting<K>, a: Ask<K>) => if cutting.TooLong? then TooLong else Take(cutting, a, url)
  }

  /** After the first n asks. */
  function Fold<K(==)>(step: Step<K>, asks: seq<Ask<K>>, n: nat): Cutting<K>
    requires n <= |asks|
  {
    if n == 0 then Cut([], []) else step(Fold(step, asks, n - 1), asks[n - 1])
  }

  function Greedy<K(==)>(asks: seq<Ask<K>>, url: UrlLength<K>): Cutting<K> {
    Fold(TakeWith(url), asks, |asks|)
  }

  function Chunks<K(==)>(cutting: Cutting<K>): seq<Chunk<K>>
    requires cutting.Cut?
  {
    cutting.done + if cutting.pending != [] then [cutting.pending] else []
  }

  // -- Every pair once, in order -----------------------------------------------------------------------

  function PieceAsks<K(==)>(p: Piece<K>): (r: seq<Ask<K>>)
    ensures |r| == |p.ids|
    ensures forall i :: 0 <= i < |r| ==> r[i] == Ask(p.key, p.ids[i])
  {
    seq(|p.ids|, i requires 0 <= i < |p.ids| => Ask(p.key, p.ids[i]))
  }

  function ChunkAsks<K(==)>(chunk: Chunk<K>): seq<Ask<K>> {
    if chunk == [] then [] else PieceAsks(chunk[0]) + ChunkAsks(chunk[1..])
  }

  function AllAsks<K(==)>(chunks: seq<Chunk<K>>): seq<Ask<K>> {
    if chunks == [] then [] else ChunkAsks(chunks[0]) + AllAsks(chunks[1..])
  }

  lemma {:induction false} AllAsksAppends<K>(a: seq<Chunk<K>>, b: seq<Chunk<K>>)
    ensures AllAsks(a + b) == AllAsks(a) + AllAsks(b)
    decreases |a|
  {
    if a == [] {
      assert a + b == b;
    } else {
      assert (a + b)[1..] == a[1..] + b;
      AllAsksAppends(a[1..], b);
    }
  }

  predicate Absent<K(==)>(chunk: Chunk<K>, key: K) {
    forall i :: 0 <= i < |chunk| ==> chunk[i].key != key
  }

  lemma {:induction false} InsertNew<K>(chunk: Chunk<K>, a: Ask<K>)
    requires Absent(chunk, a.key)
    ensures Insert(chunk, a) == chunk + Single(a)
    decreases |chunk|
  {
    if chunk != [] {
      InsertNew(chunk[1..], a);
      assert [chunk[0]] + (chunk[1..] + Single(a)) == chunk + Single(a);
    }
  }

  lemma {:induction false} InsertLast<K>(front: Chunk<K>, p: Piece<K>, a: Ask<K>)
    requires Absent(front, a.key) && p.key == a.key
    ensures Insert(front + [p], a) == front + [p.(ids := p.ids + [a.id])]
    decreases |front|
  {
    if front == [] {
      assert front + [p] == [p] && [p][1..] == [];
    } else {
      InsertLast(front[1..], p, a);
      assert (front + [p])[1..] == front[1..] + [p];
    }
  }

  lemma {:induction false} ChunkAsksAppends<K>(a: Chunk<K>, b: Chunk<K>)
    ensures ChunkAsks(a + b) == ChunkAsks(a) + ChunkAsks(b)
    decreases |a|
  {
    if a == [] {
      assert a + b == b;
    } else {
      assert (a + b)[1..] == a[1..] + b;
      ChunkAsksAppends(a[1..], b);
    }
  }

  lemma {:induction false} PieceGrows<K>(p: Piece<K>, a: Ask<K>)
    requires a.key == p.key
    ensures ChunkAsks([p.(ids := p.ids + [a.id])]) == ChunkAsks([p]) + [a]
    ensures ChunkAsks(Single(a)) == [a]
  {
    assert PieceAsks(p.(ids := p.ids + [a.id])) == PieceAsks(p) + [a];
    assert PieceAsks(Single(a)[0]) == [a];
    assert forall q: Piece<K> :: ChunkAsks([q]) == PieceAsks(q) + ChunkAsks([]);
  }

  predicate PieceOf<K(==)>(p: Piece<K>, a: Ask<K>) {
    p.key == a.key
  }

  /** The next ask goes to the last piece, or no piece has its key. */
  predicate Continues<K(==)>(chunk: Chunk<K>, a: Ask<K>) {
    || Absent(chunk, a.key)
    || (chunk != [] && PieceOf(chunk[|chunk| - 1], a) && Absent(chunk[..|chunk| - 1], a.key))
  }

  lemma {:induction false} InsertAppends<K>(chunk: Chunk<K>, a: Ask<K>)
    requires Continues(chunk, a)
    ensures ChunkAsks(Insert(chunk, a)) == ChunkAsks(chunk) + [a]
  {
    if Absent(chunk, a.key) {
      InsertNew(chunk, a);
      ChunkAsksAppends(chunk, Single(a));
      PieceGrows(Single(a)[0].(ids := []), a);
    } else {
      var n := |chunk| - 1;
      var front, p := chunk[..n], chunk[n];
      assert chunk == front + [p];
      InsertLast(front, p, a);
      ChunkAsksAppends(front, [p]);
      ChunkAsksAppends(front, [p.(ids := p.ids + [a.id])]);
      PieceGrows(p, a);
    }
  }

  /** Asks of one period follow each other. */
  predicate InRuns<K(==)>(asks: seq<Ask<K>>) {
    forall i, j :: 0 <= i < j < |asks| && asks[i].key == asks[j].key ==> asks[j - 1].key == asks[j].key
  }

  predicate DistinctKeys<K(==)>(chunk: Chunk<K>) {
    forall i, j :: 0 <= i < j < |chunk| ==> chunk[i].key != chunk[j].key
  }

  /** One of the first n asks has the key. */
  predicate Asked<K(==)>(asks: seq<Ask<K>>, n: nat, key: K)
    requires n <= |asks|
  {
    exists j :: 0 <= j < n && asks[j].key == key
  }

  /** What the pending chunk looks like after the first n asks. */
  predicate Follows<K(==)>(pending: Chunk<K>, asks: seq<Ask<K>>, n: nat)
    requires n <= |asks|
  {
    if n == 0 then pending == []
    else
      && pending != [] && PieceOf(pending[|pending| - 1], asks[n - 1])
      && DistinctKeys(pending) && NoEmptyPiece(pending)
      && (forall i :: 0 <= i < |pending| ==> Asked(asks, n, pending[i].key))
  }

  lemma {:induction false} FollowsContinues<K>(pending: Chunk<K>, asks: seq<Ask<K>>, n: nat)
    requires n < |asks| && InRuns(asks) && Follows(pending, asks, n)
    ensures Continues(pending, asks[n])
  {
    var a := asks[n];
    if !Absent(pending, a.key) {
      var i :| 0 <= i < |pending| && pending[i].key == a.key;
      var j :| 0 <= j < n && asks[j].key == a.key;
      assert asks[n - 1].key == a.key;
    }
  }

  predicate NoEmptyPiece<K(==)>(chunk: Chunk<K>) {
    forall i :: 0 <= i < |chunk| ==> chunk[i].ids != []
  }

  lemma {:induction false} InsertShape<K>(chunk: Chunk<K>, a: Ask<K>)
    requires Continues(chunk, a) && DistinctKeys(chunk) && NoEmptyPiece(chunk)
    ensures var after := Insert(chunk, a);
            && |after| >= |chunk| && after != [] && PieceOf(after[|after| - 1], a)
            && DistinctKeys(after) && NoEmptyPiece(after)
            && forall i :: 0 <= i < |after| ==> after[i].key == if i < |chunk| then chunk[i].key else a.key
  {
    if Absent(chunk, a.key) {
      InsertNew(chunk, a);
    } else {
      var m := |chunk| - 1;
      assert chunk == chunk[..m] + [chunk[m]];
      InsertLast(chunk[..m], chunk[m], a);
    }
  }

  lemma {:induction false} InsertFollows<K>(pending: Chunk<K>, asks: seq<Ask<K>>, n: nat)
    requires n < |asks| && InRuns(asks) && Follows(pending, asks, n)
    ensures Follows(Insert(pending, asks[n]), asks, n + 1)
    ensures Follows(Single(asks[n]), asks, n + 1)
  {
    var a := asks[n];
    FollowsContinues(pending, asks, n);
    InsertShape(pending, a);
    assert Asked(asks, n + 1, a.key);
    forall i | 0 <= i < |pending| ensures Asked(asks, n + 1, pending[i].key) {
      assert Asked(asks, n, pending[i].key);
    }
  }

  /** What every request honours. */
  predicate Bounded<K(==)>(chunk: Chunk<K>, url: UrlLength<K>) {
    chunk != [] && Fits(chunk, url) && DistinctKeys(chunk) && NoEmptyPiece(chunk)
  }

  predicate AllBounded<K(==)>(chunks: seq<Chunk<K>>, url: UrlLength<K>) {
    forall i :: 0 <= i < |chunks| ==> Bounded(chunks[i], url)
  }

  predicate Carries<K(==)>(cutting: Cutting<K>, asks: seq<Ask<K>>)
    requires cutting.Cut?
  {
    AllAsks(cutting.done) + ChunkAsks(cutting.pending) == asks
  }

  lemma {:induction false} NextIsCarried<K>(before: Cutting<K>, asks: seq<Ask<K>>, n: nat, url: UrlLength<K>)
    requires InRuns(asks) && n < |asks| && before.Cut? && Take(before, asks[n], url).Cut?
    requires Carries(before, asks[..n]) && Follows(before.pending, asks, n)
    ensures Carries(Take(before, asks[n], url), asks[..n + 1])
  {
    FollowsContinues(before.pending, asks, n);
    TakeKeepsAsks(before, asks[n], url);
    assert asks[..n + 1] == asks[..n] + [asks[n]];
  }

  lemma {:induction false} TakeIsBounded<K>(before: Cutting<K>, a: Ask<K>, url: UrlLength<K>)
    requires before.Cut? && Take(before, a, url).Cut?
    requires AllBounded(before.done, url) && (before.pending != [] ==> Bounded(before.pending, url))
    requires var after := Take(before, a, url).pending; after != [] && DistinctKeys(after) && NoEmptyPiece(after)
    ensures AllBounded(Take(before, a, url).done, url) && Bounded(Take(before, a, url).pending, url)
  {}

  lemma {:induction false} TakeAt<K>(asks: seq<Ask<K>>, n: nat, url: UrlLength<K>)
    requires n < |asks|
    ensures var before := Fold(TakeWith(url), asks, n);
            Fold(TakeWith(url), asks, n + 1) == if before.Cut? then Take(before, asks[n], url) else TooLong
  {}

  lemma {:induction false} TakeFollows<K>(cutting: Cutting<K>, asks: seq<Ask<K>>, n: nat, url: UrlLength<K>)
    requires InRuns(asks) && n < |asks| && cutting.Cut? && Follows(cutting.pending, asks, n)
    ensures var after := Take(cutting, asks[n], url); after.Cut? ==> Follows(after.pending, asks, n + 1)
  {
    InsertFollows(cutting.pending, asks, n);
  }

  lemma {:induction false} FoldFollows<K>(asks: seq<Ask<K>>, n: nat, url: UrlLength<K>)
    requires InRuns(asks) && n <= |asks| && Fold(TakeWith(url), asks, n).Cut?
    ensures Follows(Fold(TakeWith(url), asks, n).pending, asks, n)
    decreases n
  {
    if n > 0 {
      TakeAt(asks, n - 1, url);
      FoldFollows(asks, n - 1, url);
      TakeFollows(Fold(TakeWith(url), asks, n - 1), asks, n - 1, url);
    }
  }

  lemma {:induction false} FoldCarries<K>(asks: seq<Ask<K>>, n: nat, url: UrlLength<K>)
    requires InRuns(asks) && n <= |asks| && Fold(TakeWith(url), asks, n).Cut?
    ensures Carries(Fold(TakeWith(url), asks, n), asks[..n])
    decreases n
  {
    if n > 0 {
      TakeAt(asks, n - 1, url);
      FoldCarries(asks, n - 1, url);
      FoldFollows(asks, n - 1, url);
      NextIsCarried(Fold(TakeWith(url), asks, n - 1), asks, n - 1, url);
    }
  }

  lemma {:induction false} FoldIsBounded<K>(asks: seq<Ask<K>>, n: nat, url: UrlLength<K>)
    requires InRuns(asks) && n <= |asks| && Fold(TakeWith(url), asks, n).Cut?
    ensures AllBounded(Fold(TakeWith(url), asks, n).done, url)
    ensures Fold(TakeWith(url), asks, n).pending != [] ==> Bounded(Fold(TakeWith(url), asks, n).pending, url)
    decreases n
  {
    if n > 0 {
      TakeAt(asks, n - 1, url);
      FoldIsBounded(asks, n - 1, url);
      FoldFollows(asks, n, url);
      TakeIsBounded(Fold(TakeWith(url), asks, n - 1), asks[n - 1], url);
    }
  }

  lemma {:induction false} TakeKeepsAsks<K>(before: Cutting<K>, a: Ask<K>, url: UrlLength<K>)
    requires before.Cut? && Take(before, a, url).Cut? && Continues(before.pending, a)
    ensures AllAsks(Take(before, a, url).done) + ChunkAsks(Take(before, a, url).pending)
         == AllAsks(before.done) + ChunkAsks(before.pending) + [a]
  {
    InsertAppends(before.pending, a);
    PieceGrows(Single(a)[0].(ids := []), a);
    if Fits(Insert(before.pending, a), url) {
      assert AllAsks(before.done) + (ChunkAsks(before.pending) + [a])
          == (AllAsks(before.done) + ChunkAsks(before.pending)) + [a];
    } else if before.pending != [] {
      AllAsksAppends(before.done, [before.pending]);
      assert AllAsks([before.pending]) == ChunkAsks(before.pending) + AllAsks([]);
    }
  }

  /** The requests together ask for every pair exactly once, in the given order, and every one of
      them stays within the bounds. */
  lemma {:induction false} ChunksCarryEveryPair<K>(asks: seq<Ask<K>>, url: UrlLength<K>)
    requires InRuns(asks) && Greedy(asks, url).Cut?
    ensures AllAsks(Chunks(Greedy(asks, url))) == asks
    ensures AllBounded(Chunks(Greedy(asks, url)), url)
  {
    FoldCarries(asks, |asks|, url);
    FoldIsBounded(asks, |asks|, url);
    assert asks[..|asks|] == asks;
    FinishedCutting(Greedy(asks, url), url);
  }

  lemma {:induction false} FinishedCutting<K>(cutting: Cutting<K>, url: UrlLength<K>)
    requires cutting.Cut? && AllBounded(cutting.done, url)
    requires cutting.pending != [] ==> Bounded(cutting.pending, url)
    ensures AllAsks(Chunks(cutting)) == AllAsks(cutting.done) + ChunkAsks(cutting.pending)
    ensures AllBounded(Chunks(cutting), url)
  {
    if cutting.pending != [] {
      AllAsksAppends(cutting.done, [cutting.pending]);
      assert AllAsks([cutting.pending]) == ChunkAsks(cutting.pending) + AllAsks([]);
    } else {
      assert cutting.done + [] == cutting.done;
    }
  }

  // -- Requests are filled -----------------------------------------------------------------------------

  function FirstAsk<K>(chunk: Chunk<K>): Ask<K>
    requires chunk != [] && chunk[0].ids != []
  {
    Ask(chunk[0].key, chunk[0].ids[0])
  }

  predicate Begun<K>(chunk: Chunk<K>) {
    chunk != [] && chunk[0].ids != []
  }

  /** One ask more than a request may carry. */
  predicate Overfull<K(==)>(chunk: Chunk<K>, url: UrlLength<K>) {
    |chunk| > 8 || (exists i :: 0 <= i < |chunk| && |chunk[i].ids| > 200) || url(chunk) > 7500
  }

  /** Request i would be overfull with the first ask of the next one. */
  predicate FullAt<K(==)>(chunks: seq<Chunk<K>>, i: nat, url: UrlLength<K>)
    requires i < |chunks| - 1
  {
    Begun(chunks[i + 1]) && Overfull(Insert(chunks[i], FirstAsk(chunks[i + 1])), url)
  }

  predicate Filled<K(==)>(chunks: seq<Chunk<K>>, url: UrlLength<K>) {
    forall i :: 0 <= i < |chunks| - 1 ==> FullAt(chunks, i, url)
  }

  lemma {:induction false} InsertKeepsFirst<K>(chunk: Chunk<K>, a: Ask<K>)
    ensures Begun(Insert(chunk, a)) || (chunk != [] && !Begun(chunk))
    ensures Begun(chunk) ==> Begun(Insert(chunk, a)) && FirstAsk(Insert(chunk, a)) == FirstAsk(chunk)
    ensures chunk == [] ==> FirstAsk(Insert(chunk, a)) == a
  {}

  lemma {:induction false} FilledExtends<K>(chunks: seq<Chunk<K>>, last: Chunk<K>, other: Chunk<K>, url: UrlLength<K>)
    requires Filled(chunks + [last], url) && Begun(last) && Begun(other) && FirstAsk(other) == FirstAsk(last)
    ensures Filled(chunks + [other], url)
  {
    var before, after := chunks + [last], chunks + [other];
    forall i | 0 <= i < |after| - 1 ensures FullAt(after, i, url) {
      assert FullAt(before, i, url);
      assert after[i] == before[i];
      assert i + 1 < |chunks| ==> after[i + 1] == before[i + 1];
    }
  }

  lemma {:induction false} FilledGrows<K>(chunks: seq<Chunk<K>>, a: Ask<K>, url: UrlLength<K>)
    requires Filled(chunks, url) && chunks != [] && Overfull(Insert(chunks[|chunks| - 1], a), url)
    ensures Filled(chunks + [Single(a)], url)
  {
    var after := chunks + [Single(a)];
    forall i | 0 <= i < |after| - 1 ensures FullAt(after, i, url) {
      assert after[i] == chunks[i];
      if i + 1 < |chunks| {
        assert FullAt(chunks, i, url) && after[i + 1] == chunks[i + 1];
      } else {
        assert after[i + 1] == Single(a) && FirstAsk(Single(a)) == a;
      }
    }
  }

  predicate FilledSoFar<K(==)>(cutting: Cutting<K>, url: UrlLength<K>)
    requires cutting.Cut?
  {
    && Filled(Chunks(cutting), url)
    && (cutting.pending == [] ==> cutting.done == [])
    && (cutting.pending != [] ==> Begun(cutting.pending))
  }

  lemma {:induction false} OverfullIff<K>(chunk: Chunk<K>, url: UrlLength<K>)
    ensures Overfull(chunk, url) <==> !Fits(chunk, url)
  {}

  lemma {:induction false} TakeFills<K>(before: Cutting<K>, a: Ask<K>, url: UrlLength<K>)
    requires before.Cut? && FilledSoFar(before, url) && Take(before, a, url).Cut?
    ensures FilledSoFar(Take(before, a, url), url)
  {
    var candidate := Insert(before.pending, a);
    InsertKeepsFirst(before.pending, a);
    OverfullIff(candidate, url);
    if before.pending == [] {
      assert candidate == Single(a);
    } else if Fits(candidate, url) {
      FilledExtends(before.done, before.pending, candidate, url);
    } else {
      FilledGrows(Chunks(before), a, url);
    }
  }

  lemma {:induction false} FoldFills<K>(asks: seq<Ask<K>>, n: nat, url: UrlLength<K>)
    requires n <= |asks| && Fold(TakeWith(url), asks, n).Cut?
    ensures FilledSoFar(Fold(TakeWith(url), asks, n), url)
    decreases n
  {
    if n > 0 {
      TakeAt(asks, n - 1, url);
      FoldFills(asks, n - 1, url);
      TakeFills(Fold(TakeWith(url), asks, n - 1), asks[n - 1], url);
    }
  }

  /** A new request is begun only when the one before cannot take the next pair. */
  lemma {:induction false} ChunksAreFilled<K>(asks: seq<Ask<K>>, url: UrlLength<K>)
    requires Greedy(asks, url).Cut?
    ensures Filled(Chunks(Greedy(asks, url)), url)
    ensures asks == [] <==> Chunks(Greedy(asks, url)) == []
  {
    FoldFills(asks, |asks|, url);
    if asks != [] {
      TakeAt(asks, |asks| - 1, url);
      InsertKeepsFirst(Fold(TakeWith(url), asks, |asks| - 1).pending, asks[|asks| - 1]);
    }
  }

  /** All asks in one request. */
  function OneRequest<K(==)>(asks: seq<Ask<K>>, n: nat): Chunk<K>
    requires n <= |asks|
  {
    if n == 0 then [] else Insert(OneRequest(asks, n - 1), asks[n - 1])
  }

  predicate FitsSoFar<K(==)>(asks: seq<Ask<K>>, n: nat, url: UrlLength<K>)
    requires n <= |asks|
  {
    forall m :: 0 < m <= n ==> Fits(OneRequest(asks, m), url)
  }

  /** One ask more, when so far there is one request, or (`soFar` false) more than one or none. */
  lemma {:induction false} OneRequestStep<K>(
    before: Cutting<K>, request: Chunk<K>, a: Ask<K>, url: UrlLength<K>, soFar: bool)
    requires soFar <==> before == Cut([], request)
    requires !soFar && before.Cut? ==> before.done != []
    ensures var after, next := (if before.Cut? then Take(before, a, url) else TooLong), Insert(request, a);
            && (soFar && Fits(next, url) <==> after == Cut([], next))
            && (after.Cut? && !(soFar && Fits(next, url)) ==> after.done != [])
  {
    if soFar && request == [] {
      assert Insert(request, a) == Single(a);
    }
  }

  lemma {:induction false} OneRequestSoFar<K>(asks: seq<Ask<K>>, n: nat, url: UrlLength<K>)
    requires n <= |asks|
    ensures var cutting := Fold(TakeWith(url), asks, n);
            FitsSoFar(asks, n, url) <==> cutting == Cut([], OneRequest(asks, n))
    ensures var cutting := Fold(TakeWith(url), asks, n);
            cutting.Cut? && !FitsSoFar(asks, n, url) ==> cutting.done != []
    decreases n
  {
    if n > 0 {
      OneRequestSoFar(asks, n - 1, url);
      TakeAt(asks, n - 1, url);
      FitsOneMore(asks, n, url);
      OneRequestStep(Fold(TakeWith(url), asks, n - 1), OneRequest(asks, n - 1), asks[n - 1], url,
                     FitsSoFar(asks, n - 1, url));
    }
  }

  lemma {:induction false} FitsOneMore<K>(asks: seq<Ask<K>>, n: nat, url: UrlLength<K>)
    requires 0 < n <= |asks|
    ensures FitsSoFar(asks, n, url) <==> FitsSoFar(asks, n - 1, url) && Fits(OneRequest(asks, n), url)
  {}

  /** There is exactly one request if and only if none of the asks, added to those before, overfills it. */
  lemma {:induction false} OneRequestIff<K>(asks: seq<Ask<K>>, url: UrlLength<K>)
    requires asks != []
    ensures Greedy(asks, url).Cut? && |Chunks(Greedy(asks, url))| == 1 <==> FitsSoFar(asks, |asks|, url)
    ensures FitsSoFar(asks, |asks|, url) ==> Chunks(Greedy(asks, url)) == [OneRequest(asks, |asks|)]
  {
    OneRequestSoFar(asks, |asks|, url);
    TakeAt(asks, |asks| - 1, url);
    InsertKeepsFirst(OneRequest(asks, |asks| - 1), asks[|asks| - 1]);
    var before := Fold(TakeWith(url), asks, |asks| - 1);
    if before.Cut? {
      InsertKeepsFirst(before.pending, asks[|asks| - 1]);
    }
  }

  // -- When the cutting fails ---------------------------------------------------------------------------

  /** A longer request never has a shorter URL than one of its single asks. */
  ghost predicate Growing<K(!new)>(url: UrlLength<K>) {
    forall chunk: Chunk<K>, a: Ask<K> :: url(Insert(chunk, a)) >= url(Single(a))
  }

  predicate AllFitAlone<K(==)>(asks: seq<Ask<K>>, n: nat, url: UrlLength<K>)
    requires n <= |asks|
  {
    forall i :: 0 <= i < n ==> url(Single(asks[i])) <= MAX_URL
  }

  lemma {:induction false} CutsUpTo<K(!new)>(asks: seq<Ask<K>>, n: nat, url: UrlLength<K>)
    requires Growing(url) && n <= |asks|
    ensures Fold(TakeWith(url), asks, n).Cut? <==> AllFitAlone(asks, n, url)
    decreases n
  {
    if n > 0 {
      CutsUpTo(asks, n - 1, url);
      var before := Fold(TakeWith(url), asks, n - 1);
      assert before.Cut? ==> url(Insert(before.pending, asks[n - 1])) >= url(Single(asks[n - 1]));
    }
  }

  /** With such URLs the cutting succeeds exactly when every pair fits into a request of its own. */
  lemma {:induction false} CutIff<K(!new)>(asks: seq<Ask<K>>, url: UrlLength<K>)
    requires Growing(url)
    ensures Greedy(asks, url).Cut? <==> AllFitAlone(asks, |asks|, url)
  {
    CutsUpTo(asks, |asks|, url);
  }

  lemma {:induction false} TooLongStays<K>(asks: seq<Ask<K>>, m: nat, n: nat, url: UrlLength<K>)
    requires m <= n <= |asks| && Fold(TakeWith(url), asks, m).TooLong?
    ensures Fold(TakeWith(url), asks, n).TooLong?
    decreases n
  {
    if m < n {
      TooLongStays(asks, m, n - 1, url);
    }
  }

  // -- From the periods -----------------------------------------------------------------------------------

  function AsksOf<K(==)>(periods: seq<Piece<K>>): seq<Ask<K>>
    decreases |periods|
  {
    if periods == [] then [] else AsksOf(periods[..|periods| - 1]) + PieceAsks(periods[|periods| - 1])
  }

  predicate DistinctPeriods<K(==)>(periods: seq<Piece<K>>) {
    forall i, j :: 0 <= i < j < |periods| ==> periods[i].key != periods[j].key
  }

  predicate KeyAmong<K(==)>(periods: seq<Piece<K>>, key: K) {
    exists i :: 0 <= i < |periods| && periods[i].key == key
  }

  lemma {:induction false} AskKeysAreKeys<K>(periods: seq<Piece<K>>, j: nat)
    requires j < |AsksOf(periods)|
    ensures KeyAmong(periods, AsksOf(periods)[j].key)
    decreases |periods|
  {
    var n := |periods| - 1;
    var front := AsksOf(periods[..n]);
    if j < |front| {
      AskKeysAreKeys(periods[..n], j);
      var i :| 0 <= i < n && periods[..n][i].key == front[j].key;
      assert periods[i].key == front[j].key;
    } else {
      assert AsksOf(periods)[j] == PieceAsks(periods[n])[j - |front|];
      assert periods[n].key == AsksOf(periods)[j].key;
    }
  }

  lemma {:induction false} AsksAreInRuns<K>(periods: seq<Piece<K>>)
    requires DistinctPeriods(periods)
    ensures InRuns(AsksOf(periods))
    decreases |periods|
  {
    if periods != [] {
      var n := |periods| - 1;
      var front, last := AsksOf(periods[..n]), PieceAsks(periods[n]);
      AsksAreInRuns(periods[..n]);
      forall i | 0 <= i < |front| ensures front[i].key != periods[n].key {
        AskKeysAreKeys(periods[..n], i);
      }
      RunsAppend(front, last, periods[n].key);
    }
  }

  lemma {:induction false} RunsAppend<K>(front: seq<Ask<K>>, last: seq<Ask<K>>, key: K)
    requires InRuns(front)
    requires forall i :: 0 <= i < |front| ==> front[i].key != key
    requires forall i :: 0 <= i < |last| ==> last[i].key == key
    ensures InRuns(front + last)
  {
    var asks, m := front + last, |front|;
    forall i, j | 0 <= i < j < |asks| && asks[i].key == asks[j].key
      ensures asks[j - 1].key == asks[j].key
    {
      if j >= m {
        assert asks[j] == last[j - m] && asks[j].key == key;
        assert i >= m && asks[i] == last[i - m] && asks[j - 1] == last[j - 1 - m];
      } else {
        assert front[i].key == front[j].key;
      }
    }
  }

  /** The requests for a list of periods, or nothing if the input or a URL is out of bounds. */
  function Requests<K(==)>(periods: seq<Piece<K>>, valid: K -> bool, url: UrlLength<K>): Option<seq<Chunk<K>>> {
    if !InputOk(periods, valid) then None
    else
      var asks := AsksOf(periods);
      var cutting := Greedy(asks, url);
      if cutting.TooLong? then None else Some(Chunks(cutting))
  }

  /** A period that no request may carry. */
  predicate Bad<K(==)>(p: Piece<K>, valid: K -> bool) {
    || !valid(p.key) || p.ids == []
    || (exists a, b :: 0 <= a < b < |p.ids| && p.ids[a] == p.ids[b])
    || (exists a :: 0 <= a < |p.ids| && !(1 <= p.ids[a] <= 2147483647))
  }

  predicate AnyBad<K(==)>(periods: seq<Piece<K>>, valid: K -> bool) {
    exists i :: 0 <= i < |periods| && Bad(periods[i], valid)
  }

  predicate AnyTooLong<K(==)>(asks: seq<Ask<K>>, url: UrlLength<K>) {
    exists i :: 0 <= i < |asks| && url(Single(asks[i])) > 7500
  }

  /** The input is refused exactly for a bad period, or for a pair that is too long even alone; nothing
      is truncated. */
  lemma {:induction false} RefusedIff<K(!new)>(periods: seq<Piece<K>>, valid: K -> bool, url: UrlLength<K>)
    requires Growing(url)
    ensures Requests(periods, valid, url).None? <==> AnyBad(periods, valid) || AnyTooLong(AsksOf(periods), url)
  {
    CutIff(AsksOf(periods), url);
    forall i | 0 <= i < |periods| ensures Admitted(periods[i], valid) <==> !Bad(periods[i], valid) {
      AdmittedIff(periods[i], valid);
    }
    var asks := AsksOf(periods);
    assert InputOk(periods, valid) <==> !AnyBad(periods, valid);
    assert AllFitAlone(asks, |asks|, url) <==> !AnyTooLong(asks, url);
    assert Requests(periods, valid, url).None? <==> !InputOk(periods, valid) || Greedy(asks, url).TooLong?;
  }

  lemma {:induction false} AdmittedIff<K>(p: Piece<K>, valid: K -> bool)
    ensures Admitted(p, valid) <==> !Bad(p, valid)
  {
    if NoRepeats(p.ids) {
      assert forall a, b :: 0 <= a < b < |p.ids| ==> p.ids[a] != p.ids[b];
    }
  }

  /** How many asks the first i periods have. */
  function Offset<K(==)>(periods: seq<Piece<K>>, i: nat): nat
    requires i <= |periods|
    decreases i
  {
    if i == 0 then 0 else Offset(periods, i - 1) + |periods[i - 1].ids|
  }

  lemma {:induction false} AskAt<K>(periods: seq<Piece<K>>, i: nat, j: nat)
    requires i < |periods| && j < |periods[i].ids|
    ensures |AsksOf(periods)| == Offset(periods, |periods|)
    ensures Offset(periods, i) + j < |AsksOf(periods)|
    ensures AsksOf(periods)[Offset(periods, i) + j] == PieceAsks(periods[i])[j]
    decreases |periods|
  {
    var n := |periods| - 1;
    AskCount(periods);
    AskCount(periods[..n]);
    OffsetOfFront(periods, n);
    if i < n {
      AskAt(periods[..n], i, j);
      OffsetOfFront(periods, i);
    }
  }

  lemma {:induction false} AskCount<K>(periods: seq<Piece<K>>)
    ensures |AsksOf(periods)| == Offset(periods, |periods|)
    decreases |periods|
  {
    if periods != [] {
      AskCount(periods[..|periods| - 1]);
      OffsetOfFront(periods, |periods| - 1);
    }
  }

  lemma {:induction false} OffsetOfFront<K>(periods: seq<Piece<K>>, i: nat)
    requires i < |periods|
    ensures Offset(periods[..|periods| - 1], i) == Offset(periods, i)
    decreases i
  {
    if i > 0 {
      OffsetOfFront(periods, i - 1);
    }
  }

  /** The asks of a period start at place `from`. */
  predicate AsksAt<K(==)>(asks: seq<Ask<K>>, from: nat, p: Piece<K>) {
    && from + |p.ids| <= |asks|
    && forall j :: 0 <= j < |p.ids| ==> asks[from + j] == Ask(p.key, p.ids[j])
  }

  lemma {:induction false} PeriodIsAt<K>(periods: seq<Piece<K>>, i: nat)
    requires i < |periods|
    ensures AsksAt(AsksOf(periods), Offset(periods, i), periods[i])
    ensures Offset(periods, i + 1) == Offset(periods, i) + |periods[i].ids|
  {
    var p, from := periods[i], Offset(periods, i);
    forall j | 0 <= j < |p.ids|
      ensures from + j < |AsksOf(periods)| && AsksOf(periods)[from + j] == PieceAsks(p)[j]
    {
      AskAt(periods, i, j);
    }
    AskCount(periods);
    OffsetsGrow(periods, i, |periods|);
    if p.ids != [] {
      AskAt(periods, i, |p.ids| - 1);
    }
  }

  lemma {:induction false} OffsetsGrow<K>(periods: seq<Piece<K>>, i: nat, k: nat)
    requires i <= k <= |periods|
    ensures Offset(periods, i) <= Offset(periods, k)
    decreases k
  {
    if i < k {
      OffsetsGrow(periods, i, k - 1);
    }
  }

  /** Adds the asks of one period; stops at the first that is out of bounds. */
  method CutPeriod<K>(step: Step<K>, p: Piece<K>, ghost asks: seq<Ask<K>>, ghost from: nat, before: Cutting<K>)
    returns (ok: bool, cutting: Cutting<K>, ghost n: nat)
    requires AsksAt(asks, from, p) && before.Cut? && Fold(step, asks, from) == before
    ensures ok ==> IdsOk(p.ids) && cutting.Cut? && Fold(step, asks, from + |p.ids|) == cutting
    ensures !ok ==> !IdsOk(p.ids) || (n <= |asks| && Fold(step, asks, n).TooLong?)
  {
    cutting, ok, n := before, true, from;
    for i := 0 to |p.ids|
      invariant ok && cutting.Cut?
      invariant forall k :: 0 <= k < i ==> IdOk(p.ids[k])
      invariant n == from + i && Fold(step, asks, n) == cutting
    {
      if !IdOk(p.ids[i]) {
        ok := false;
        return;
      }
      cutting, n := step(cutting, Ask(p.key, p.ids[i])), n + 1;
      if cutting.TooLong? {
        ok := false;
        return;
      }
    }
  }

  /** Cuts all periods; stops at the first that is not admitted. */
  method CutAll<K>(step: Step<K>, periods: seq<Piece<K>>, valid: K -> bool)
    returns (ok: bool, cutting: Cutting<K>, ghost n: nat)
    ensures ok ==> InputOk(periods, valid) && cutting.Cut?
    ensures ok ==> Fold(step, AsksOf(periods), |AsksOf(periods)|) == cutting
    ensures !ok ==> !InputOk(periods, valid) || (n <= |AsksOf(periods)| && Fold(step, AsksOf(periods), n).TooLong?)
  {
    cutting, ok, n := Cut([], []), true, 0;
    ghost var asks := AsksOf(periods);
    for i := 0 to |periods|
      invariant ok && cutting.Cut? && forall k :: 0 <= k < i ==> Admitted(periods[k], valid)
      invariant Offset(periods, i) <= |asks|
      invariant Fold(step, asks, Offset(periods, i)) == cutting
    {
      PeriodIsAt(periods, i);
      ok := PeriodOk(periods[i], valid);
      if ok {
        ok, cutting, n := CutPeriod(step, periods[i], asks, Offset(periods, i), cutting);
      }
      if !ok {
        return;
      }
    }
    AskCount(periods);
  }

  method CutRequests<K(==)>(periods: seq<Piece<K>>, valid: K -> bool, url: UrlLength<K>)
    returns (r: Option<seq<Chunk<K>>>)
    ensures r == Requests(periods, valid, url)
  {
    var ok, cutting, n := CutAll(TakeWith(url), periods, valid);
    if !ok {
      if InputOk(periods, valid) {
        TooLongStays(AsksOf(periods), n, |AsksOf(periods)|, url);
      }
      return None;
    }
    return Some(Chunks(cutting));
  }
}
