/** Reading the replies to the batch requests: a reply counts only if it answers exactly what its
    request asked, and the first one that does not ends everything. */
module TotalsBatch {
  import opened BatchChunks
  import opened Common

  /** One client line of a reply; `totals` is None when a field is missing or unreadable. */
  datatype Line<T> = BadLine | Line(id: int, totals: Option<T>)
  datatype Entry<K, T> = BadEntry | Entry(key: K, lines: seq<Line<T>>)
  datatype Reply<K, T> = NoReply | Status(code: nat) | BadBody | Data(entries: seq<Entry<K, T>>)

  datatype Failure = Mismatch | Unavailable(status: nat)
  datatype Result<T> = Ok(value: T) | Failed(failure: Failure)

  type Totals<K, T> = map<K, map<nat, T>>

  // -- One entry ----------------------------------------------------------------------------------

  predicate GoodLine<T>(line: Line<T>, ids: seq<nat>) {
    line.Line? && line.id >= 0 && line.id in ids && line.totals.Some?
  }

  /** The first n lines in turn: each must be for a client asked for and not seen before. */
  function ReadLines<T>(lines: seq<Line<T>>, n: nat, ids: seq<nat>): Option<map<nat, T>>
    requires n <= |lines|
    decreases n
  {
    if n == 0 then Some(map[])
    else
      match ReadLines(lines, n - 1, ids)
      case None => None
      case Some(received) =>
        var line := lines[n - 1];
        if !GoodLine(line, ids) || line.id in received then None
        else Some(received[line.id := line.totals.value])
  }

  /** Readable lines for clients that were asked for, none twice. */
  predicate GoodLines<T>(lines: seq<Line<T>>, n: nat, ids: seq<nat>)
    requires n <= |lines|
  {
    && (forall i :: 0 <= i < n ==> GoodLine(lines[i], ids))
    && (forall i, j :: 0 <= i < j < n ==> lines[i].id != lines[j].id)
  }

  predicate Received<T>(lines: seq<Line<T>>, n: nat, id: nat)
    requires n <= |lines|
  {
    exists i :: 0 <= i < n && lines[i].Line? && lines[i].id == id
  }

  predicate SaidBy<T(==)>(lines: seq<Line<T>>, n: nat, id: nat, totals: T)
    requires n <= |lines|
  {
    exists i :: 0 <= i < n && lines[i] == Line(id, Some(totals))
  }

  /** The totals of the first n lines and no others. */
  ghost predicate IsReceived<T>(received: map<nat, T>, lines: seq<Line<T>>, n: nat)
    requires n <= |lines|
  {
    && (forall id :: id in received ==> SaidBy(lines, n, id, received[id]))
    && (forall id :: id in received <==> Received(lines, n, id))
  }

  /** Whatever the lines are: they are read exactly when they are good, and then as they stand. A
      client with two lines is refused, whether their totals agree or not. */
  lemma {:induction false} ReadLinesIff<T>(lines: seq<Line<T>>, n: nat, ids: seq<nat>)
    requires n <= |lines|
    ensures ReadLines(lines, n, ids).Some? <==> GoodLines(lines, n, ids)
    ensures ReadLines(lines, n, ids).Some? ==> IsReceived(ReadLines(lines, n, ids).value, lines, n)
    decreases n
  {
    if n > 0 {
      ReadLinesIff(lines, n - 1, ids);
      var line, before := lines[n - 1], ReadLines(lines, n - 1, ids);
      if before.Some? && GoodLine(line, ids) {
        assert line.id in before.value <==> Received(lines, n - 1, line.id);
        if line.id !in before.value {
          NextLineIsReceived(lines, n - 1, before.value);
        }
      }
    }
  }

  lemma {:induction false} NextLineIsReceived<T>(lines: seq<Line<T>>, n: nat, before: map<nat, T>)
    requires n < |lines| && IsReceived(before, lines, n)
    requires lines[n].Line? && lines[n].id >= 0 && lines[n].totals.Some? && lines[n].id !in before
    ensures IsReceived(before[lines[n].id := lines[n].totals.value], lines, n + 1)
  {
    var line := lines[n];
    var after := before[line.id := line.totals.value];
    forall id | id in after ensures SaidBy(lines, n + 1, id, after[id]) {
      if id == line.id {
        assert lines[n] == Line(id, Some(after[id]));
      } else {
        assert SaidBy(lines, n, id, before[id]);
      }
    }
    forall id ensures id in after <==> Received(lines, n + 1, id) {
      assert id in before <==> Received(lines, n, id);
    }
  }

  predicate HonestLine<T(==)>(line: Line<T>, truth: nat -> T) {
    line.Line? && line.id >= 0 && line.totals.Some? ==> line.totals.value == truth(line.id)
  }

  /** The lines say what `truth` says. */
  predicate Honest<T(==)>(lines: seq<Line<T>>, truth: nat -> T) {
    forall i :: 0 <= i < |lines| ==> HonestLine(lines[i], truth)
  }

  lemma {:induction false} HonestLinesAreTruthful<T>(lines: seq<Line<T>>, ids: seq<nat>, truth: nat -> T)
    requires Honest(lines, truth) && ReadLines(lines, |lines|, ids).Some?
    ensures var received := ReadLines(lines, |lines|, ids).value;
            forall id :: id in received ==> received[id] == truth(id)
  {
    ReadLinesIff(lines, |lines|, ids);
    var received := ReadLines(lines, |lines|, ids).value;
    forall id | id in received ensures received[id] == truth(id) {
      assert SaidBy(lines, |lines|, id, received[id]);
      var i :| 0 <= i < |lines| && lines[i] == Line(id, Some(received[id]));
      assert HonestLine(lines[i], truth);
    }
  }

  lemma {:induction false} SetSize<T>(s: seq<T>)
    requires NoRepeats(s)
    ensures |set x | x in s| == |s|
    decreases |s|
  {
    if s != [] {
      var n := |s| - 1;
      SetSize(s[..n]);
      assert (set x | x in s) == (set x | x in s[..n]) + {s[n]};
      assert s[n] !in s[..n];
    }
  }

  /** As many distinct values as places to fill: every place is filled. */
  lemma {:induction false} Pigeonhole<T>(s: seq<T>, places: seq<T>)
    requires NoRepeats(s) && NoRepeats(places) && |s| == |places|
    requires forall x :: x in s ==> x in places
    ensures forall x :: x in places ==> x in s
  {
    var a, b := set x | x in s, set x | x in places;
    SetSize(s);
    SetSize(places);
    assert a <= b;
    assert |b - a| == |b| - |a|;
    forall x | x in places ensures x in s {
      assert x in b && b - a == {};
    }
  }

  // -- One reply -------------------------------------------------------------------------------------

  function PieceFor<K(==)>(chunk: Chunk<K>, key: K): (r: Option<Piece<K>>)
    ensures r.Some? ==> r.value in chunk && r.value.key == key
    ensures r.None? ==> forall p :: p in chunk ==> p.key != key
  {
    if chunk == [] then None
    else if chunk[0].key == key then Some(chunk[0])
    else PieceFor(chunk[1..], key)
  }

  /** Adds what was received for a period, unless a client has totals for it already. */
  function Merge<K(==), T>(merged: Totals<K, T>, key: K, received: map<nat, T>): Option<Totals<K, T>> {
    var before := if key in merged then merged[key] else map[];
    if exists id :: id in received && id in before then None else Some(merged[key := before + received])
  }

  /** The first n entries in turn. */
  function ReadEntries<K(==), T>(entries: seq<Entry<K, T>>, n: nat, chunk: Chunk<K>, merged: Totals<K, T>)
    : Option<Totals<K, T>>
    requires n <= |entries|
    decreases n
  {
    if n == 0 then Some(merged)
    else
      match ReadEntries(entries, n - 1, chunk, merged)
      case None => None
      case Some(m) => ReadEntry(entries, n - 1, chunk, m)
  }

  predicate KeySeen<K(==), T>(entries: seq<Entry<K, T>>, n: nat, key: K)
    requires n <= |entries|
  {
    exists j :: 0 <= j < n && entries[j].Entry? && entries[j].key == key
  }

  function ReadEntry<K(==), T>(entries: seq<Entry<K, T>>, n: nat, chunk: Chunk<K>, merged: Totals<K, T>)
    : Option<Totals<K, T>>
    requires n < |entries|
  {
    if entries[n].BadEntry? then None
    else
      var e := entries[n];
      match PieceFor(chunk, e.key)
      case None => None
      case Some(p) =>
        if KeySeen(entries, n, e.key) || |e.lines| != |p.ids| then None
        else
          match ReadLines(e.lines, |e.lines|, p.ids)
          case None => None
          case Some(received) => Merge(merged, e.key, received)
  }

  function ReadReply<K(==), T>(reply: Reply<K, T>, chunk: Chunk<K>, merged: Totals<K, T>): Result<Totals<K, T>> {
    match reply
    case NoReply => Failed(Unavailable(502))
    case Status(code) => Failed(Unavailable(if code == 401 || code == 403 then code else 502))
    case BadBody => Failed(Mismatch)
    case Data(entries) =>
      if |entries| != |chunk| then Failed(Mismatch)
      else
        match ReadEntries(entries, |entries|, chunk, merged)
        case None => Failed(Mismatch)
        case Some(m) => Ok(m)
  }

  // -- What a good reply is -----------------------------------------------------------------------------

  type Truth<!K, +T> = (K, nat) -> T

  /** A period that was asked for, with readable lines for exactly as many of its clients. */
  predicate GoodEntry<K(==), T>(e: Entry<K, T>, chunk: Chunk<K>) {
    e.Entry? &&
    match PieceFor(chunk, e.key)
    case None => false
    case Some(p) => |e.lines| == |p.ids| && GoodLines(e.lines, |e.lines|, p.ids)
  }

  predicate GoodEntries<K(==), T>(entries: seq<Entry<K, T>>, n: nat, chunk: Chunk<K>)
    requires n <= |entries|
  {
    && (forall i :: 0 <= i < n ==> GoodEntry(entries[i], chunk))
    && (forall i, j :: 0 <= i < j < n ==> entries[i].key != entries[j].key)
  }

  /** The reply answers the request: every period once, every client once, all readable. */
  predicate Complete<K(==), T>(reply: Reply<K, T>, chunk: Chunk<K>) {
    reply.Data? && |reply.entries| == |chunk| && GoodEntries(reply.entries, |reply.entries|, chunk)
  }

  predicate HonestEntry<K(==), T(==)>(e: Entry<K, T>, truth: Truth<K, T>) {
    e.Entry? ==> Honest(e.lines, (id: nat) => truth(e.key, id))
  }

  predicate HonestEntries<K(==), T(==)>(entries: seq<Entry<K, T>>, truth: Truth<K, T>) {
    forall i :: 0 <= i < |entries| ==> HonestEntry(entries[i], truth)
  }

  predicate NoneEmpty<K, T>(merged: Totals<K, T>) {
    forall k :: k in merged ==> merged[k].Keys != {}
  }

  /** The asks that the merged totals answer; None if a period has no client. */
  ghost function Held<K, T>(merged: Totals<K, T>): Option<set<Ask<K>>> {
    if NoneEmpty(merged) then Some(set k, id | k in merged && id in merged[k] :: Ask(k, id)) else None
  }

  /** The merged totals are for the asks in `asked`, all of them and no others. */
  ghost predicate Holds<K, T>(merged: Totals<K, T>, asked: set<Ask<K>>) {
    Held(merged) == Some(asked)
  }

  lemma {:induction false} HoldsMeans<K, T>(merged: Totals<K, T>, asked: set<Ask<K>>)
    requires Holds(merged, asked)
    ensures forall k, id :: k in merged && id in merged[k] ==> Ask(k, id) in asked
    ensures forall a :: a in asked ==> a.key in merged && a.id in merged[a.key]
    ensures NoneEmpty(merged)
  {}

  lemma {:induction false} ThenHolds<K, T>(merged: Totals<K, T>, asked: set<Ask<K>>)
    requires forall k, id :: k in merged && id in merged[k] ==> Ask(k, id) in asked
    requires forall a :: a in asked ==> a.key in merged && a.id in merged[a.key]
    requires NoneEmpty(merged)
    ensures Holds(merged, asked)
  {
    assert (set k, id | k in merged && id in merged[k] :: Ask(k, id)) == asked;
  }

  ghost predicate Truthful<K, T>(merged: Totals<K, T>, truth: Truth<K, T>) {
    forall k, id :: k in merged && id in merged[k] ==> merged[k][id] == truth(k, id)
  }

  ghost predicate IsAnswer<K, T>(merged: Totals<K, T>, asked: set<Ask<K>>, truth: Truth<K, T>) {
    Holds(merged, asked) && Truthful(merged, truth)
  }

  lemma {:induction false} AnswerIsUnique<K, T>(a: Totals<K, T>, b: Totals<K, T>, asked: set<Ask<K>>, truth: Truth<K, T>)
    requires IsAnswer(a, asked, truth) && IsAnswer(b, asked, truth)
    ensures a == b
  {
    HoldsMeans(a, asked);
    HoldsMeans(b, asked);
    KeysAgree(a, b, asked);
    KeysAgree(b, a, asked);
    forall k | k in a ensures a[k] == b[k] {
      forall id ensures id in a[k] <==> id in b[k] {
        assert id in a[k] ==> Ask(k, id) in asked;
        assert id in b[k] ==> Ask(k, id) in asked;
      }
    }
  }

  lemma {:induction false} KeysAgree<K, T>(a: Totals<K, T>, b: Totals<K, T>, asked: set<Ask<K>>)
    requires Holds(a, asked) && Holds(b, asked)
    ensures forall k :: k in a ==> k in b
  {
    HoldsMeans(a, asked);
    HoldsMeans(b, asked);
    forall k | k in a ensures k in b {
      var id :| id in a[k].Keys;
      assert Ask(k, id) in asked;
      assert Ask(k, id).key in b;
    }
  }

  lemma {:induction false} NothingHoldsNothing<K, T>(merged: Totals<K, T>)
    requires merged == map[]
    ensures Holds(merged, {})
  {
    ThenHolds(merged, {});
  }

  lemma {:induction false} NothingIsTruthful<K, T>(merged: Totals<K, T>, truth: Truth<K, T>)
    requires merged == map[]
    ensures Truthful(merged, truth)
  {}

  function PieceSet<K(==)>(p: Piece<K>): set<Ask<K>> {
    set id | id in p.ids :: Ask(p.key, id)
  }

  predicate TidyPiece<K>(p: Piece<K>) {
    p.ids != [] && NoRepeats(p.ids)
  }

  lemma {:induction false} GoodEntryReceives<K, T>(e: Entry<K, T>, p: Piece<K>)
    requires e.Entry? && TidyPiece(p) && |e.lines| == |p.ids|
    ensures ReadLines(e.lines, |e.lines|, p.ids).Some? <==> GoodLines(e.lines, |e.lines|, p.ids)
    ensures GoodLines(e.lines, |e.lines|, p.ids) ==>
              forall id :: id in ReadLines(e.lines, |e.lines|, p.ids).value <==> id in p.ids
  {
    ReadLinesIff(e.lines, |e.lines|, p.ids);
    if GoodLines(e.lines, |e.lines|, p.ids) {
      var answered := seq(|e.lines|, i requires 0 <= i < |e.lines| => e.lines[i].id as nat);
      Pigeonhole(answered, p.ids);
      var received := ReadLines(e.lines, |e.lines|, p.ids).value;
      forall id ensures id in received <==> id in p.ids {
        assert id in received <==> Received(e.lines, |e.lines|, id);
        assert id in answered <==> Received(e.lines, |e.lines|, id);
      }
    }
  }

  lemma {:induction false} MergeHolds<K, T>(
    merged: Totals<K, T>, asked: set<Ask<K>>, p: Piece<K>, received: map<nat, T>)
    requires Holds(merged, asked) && TidyPiece(p) && asked !! PieceSet(p)
    requires forall id :: id in received <==> id in p.ids
    ensures Merge(merged, p.key, received).Some?
    ensures Holds(Merge(merged, p.key, received).value, asked + PieceSet(p))
  {
    HoldsMeans(merged, asked);
    var before := if p.key in merged then merged[p.key] else map[];
    forall id | id in received ensures id !in before {
      assert Ask(p.key, id) in PieceSet(p);
    }
    var after := merged[p.key := before + received];
    assert p.ids[0] in received && p.ids[0] in after[p.key].Keys;
    ThenHolds(after, asked + PieceSet(p));
  }

  lemma {:induction false} MergeIsTruthful<K, T>(
    merged: Totals<K, T>, key: K, received: map<nat, T>, truth: Truth<K, T>)
    requires Truthful(merged, truth) && Merge(merged, key, received).Some?
    requires forall id :: id in received ==> received[id] == truth(key, id)
    ensures Truthful(Merge(merged, key, received).value, truth)
  {}

  /** A request: distinct periods, each with distinct clients. */
  predicate TidyChunk<K(==)>(chunk: Chunk<K>) {
    && DistinctKeys(chunk)
    && forall i :: 0 <= i < |chunk| ==> TidyPiece(chunk[i])
  }

  /** What the first n entries of a reply are about. */
  function EntrySet<K(==), T>(entries: seq<Entry<K, T>>, n: nat, chunk: Chunk<K>): set<Ask<K>>
    requires n <= |entries| && GoodEntries(entries, n, chunk)
    decreases n
  {
    if n == 0 then {}
    else
      assert GoodEntry(entries[n - 1], chunk);
      EntrySet(entries, n - 1, chunk) + PieceSet(PieceFor(chunk, entries[n - 1].key).value)
  }

  lemma {:induction false} EntrySetKeys<K, T>(entries: seq<Entry<K, T>>, n: nat, chunk: Chunk<K>, a: Ask<K>)
    requires n <= |entries| && GoodEntries(entries, n, chunk)
    requires a in EntrySet(entries, n, chunk)
    ensures KeySeen(entries, n, a.key)
    decreases n
  {
    assert GoodEntry(entries[n - 1], chunk);
    var p := PieceFor(chunk, entries[n - 1].key).value;
    if a in PieceSet(p) {
      assert entries[n - 1].key == a.key;
    } else {
      EntrySetKeys(entries, n - 1, chunk, a);
    }
  }

  function ChunkSet<K(==)>(chunk: Chunk<K>): set<Ask<K>> {
    set p, a | p in chunk && a in PieceSet(p) :: a
  }

  lemma {:induction false} PieceIsTidy<K>(chunk: Chunk<K>, p: Piece<K>)
    requires TidyChunk(chunk) && p in chunk
    ensures TidyPiece(p)
  {}

  lemma {:induction false} NextGoodEntry<K, T>(
    entries: seq<Entry<K, T>>, n: nat, chunk: Chunk<K>, merged: Totals<K, T>, asked: set<Ask<K>>)
    requires n < |entries| && GoodEntries(entries, n + 1, chunk)
    requires TidyChunk(chunk) && asked !! ChunkSet(chunk)
    requires Holds(merged, asked + EntrySet(entries, n, chunk))
    ensures ReadEntry(entries, n, chunk, merged).Some?
    ensures Holds(ReadEntry(entries, n, chunk, merged).value, asked + EntrySet(entries, n + 1, chunk))
  {
    var e := entries[n];
    assert GoodEntry(e, chunk);
    var p := PieceFor(chunk, e.key).value;
    PieceIsTidy(chunk, p);
    assert !KeySeen(entries, n, e.key);
    GoodEntryReceives(e, p);
    NewPiece(entries, n, chunk, asked, p);
    var before := asked + EntrySet(entries, n, chunk);
    MergeHolds(merged, before, p, ReadLines(e.lines, |e.lines|, p.ids).value);
    assert asked + EntrySet(entries, n + 1, chunk) == before + PieceSet(p);
  }

  lemma {:induction false} NextBadEntry<K, T>(
    entries: seq<Entry<K, T>>, n: nat, chunk: Chunk<K>, merged: Totals<K, T>)
    requires n < |entries| && GoodEntries(entries, n, chunk) && !GoodEntries(entries, n + 1, chunk)
    requires TidyChunk(chunk)
    ensures ReadEntry(entries, n, chunk, merged).None?
  {
    var e := entries[n];
    if e.Entry? && PieceFor(chunk, e.key).Some? && !KeySeen(entries, n, e.key) {
      var p := PieceFor(chunk, e.key).value;
      PieceIsTidy(chunk, p);
      if |e.lines| == |p.ids| {
        GoodEntryReceives(e, p);
      }
      assert forall j :: 0 <= j < n ==> entries[j].key != e.key;
    }
  }

  lemma {:induction false} NewPiece<K, T>(
    entries: seq<Entry<K, T>>, n: nat, chunk: Chunk<K>, asked: set<Ask<K>>, p: Piece<K>)
    requires n <= |entries| && GoodEntries(entries, n, chunk)
    requires asked !! ChunkSet(chunk) && p in chunk && !KeySeen(entries, n, p.key)
    ensures (asked + EntrySet(entries, n, chunk)) !! PieceSet(p)
  {
    forall a | a in PieceSet(p) ensures a !in asked + EntrySet(entries, n, chunk) {
      assert a in ChunkSet(chunk);
      if a in EntrySet(entries, n, chunk) {
        EntrySetKeys(entries, n, chunk, a);
      }
    }
  }

  lemma {:induction false} FewerGoodEntries<K, T>(entries: seq<Entry<K, T>>, n: nat, chunk: Chunk<K>)
    requires 0 < n <= |entries| && GoodEntries(entries, n, chunk)
    ensures GoodEntries(entries, n - 1, chunk)
  {}

  lemma {:induction false} ReadsGoodEntries<K, T>(
    entries: seq<Entry<K, T>>, n: nat, chunk: Chunk<K>, merged: Totals<K, T>, asked: set<Ask<K>>)
    requires n <= |entries| && GoodEntries(entries, n, chunk) && TidyChunk(chunk)
    requires asked !! ChunkSet(chunk) && Holds(merged, asked)
    ensures ReadEntries(entries, n, chunk, merged).Some?
    ensures Holds(ReadEntries(entries, n, chunk, merged).value, asked + EntrySet(entries, n, chunk))
    decreases n
  {
    if n == 0 {
      assert asked + EntrySet(entries, 0, chunk) == asked;
    } else {
      FewerGoodEntries(entries, n, chunk);
      ReadsGoodEntries(entries, n - 1, chunk, merged, asked);
      NextGoodEntry(entries, n - 1, chunk, ReadEntries(entries, n - 1, chunk, merged).value, asked);
    }
  }

  lemma {:induction false} RefusesBadEntries<K, T>(
    entries: seq<Entry<K, T>>, n: nat, chunk: Chunk<K>, merged: Totals<K, T>)
    requires n <= |entries| && !GoodEntries(entries, n, chunk) && TidyChunk(chunk)
    ensures ReadEntries(entries, n, chunk, merged).None?
    decreases n
  {
    if !GoodEntries(entries, n - 1, chunk) {
      RefusesBadEntries(entries, n - 1, chunk, merged);
    } else if ReadEntries(entries, n - 1, chunk, merged).Some? {
      NextBadEntry(entries, n - 1, chunk, ReadEntries(entries, n - 1, chunk, merged).value);
    }
  }

  function KeyAt<K, T>(entries: seq<Entry<K, T>>, i: nat): K
    requires i < |entries| && entries[i].Entry?
  {
    entries[i].key
  }

  lemma {:induction false} EveryPieceIsNamed<K, T>(entries: seq<Entry<K, T>>, chunk: Chunk<K>, j: nat)
    requires TidyChunk(chunk) && |entries| == |chunk| && GoodEntries(entries, |entries|, chunk)
    requires j < |chunk|
    ensures exists i :: 0 <= i < |entries| && KeyAt(entries, i) == chunk[j].key
  {
    var n := |entries|;
    assert forall i :: 0 <= i < n ==> GoodEntry(entries[i], chunk);
    var named := seq(n, i requires 0 <= i < n => KeyAt(entries, i));
    var wanted := seq(n, i requires 0 <= i < n => chunk[i].key);
    forall k | k in named ensures k in wanted {
      var i :| 0 <= i < n && named[i] == k;
      var p := PieceFor(chunk, entries[i].key).value;
      var l :| 0 <= l < n && chunk[l] == p;
      assert wanted[l] == k;
    }
    Pigeonhole(named, wanted);
    assert wanted[j] in named;
    var i :| 0 <= i < n && named[i] == wanted[j];
    assert KeyAt(entries, i) == chunk[j].key;
  }

  lemma {:induction false} PieceForKey<K>(chunk: Chunk<K>, j: nat)
    requires DistinctKeys(chunk) && j < |chunk|
    ensures PieceFor(chunk, chunk[j].key) == Some(chunk[j])
  {
    var p := PieceFor(chunk, chunk[j].key).value;
    var i :| 0 <= i < |chunk| && chunk[i] == p;
  }

  /** As many good entries as the request has periods: the reply is about the whole request. */
  lemma {:induction false} CompleteIsAll<K, T>(entries: seq<Entry<K, T>>, chunk: Chunk<K>)
    requires TidyChunk(chunk) && |entries| == |chunk| && GoodEntries(entries, |entries|, chunk)
    ensures EntrySet(entries, |entries|, chunk) == ChunkSet(chunk)
  {
    forall a | a in ChunkSet(chunk) ensures a in EntrySet(entries, |entries|, chunk) {
      var p :| p in chunk && a in PieceSet(p);
      var j :| 0 <= j < |chunk| && chunk[j] == p;
      EveryPieceIsNamed(entries, chunk, j);
      PieceForKey(chunk, j);
      var i :| 0 <= i < |entries| && KeyAt(entries, i) == chunk[j].key;
      EntryIsCounted(entries, |entries|, chunk, i);
    }
    forall a | a in EntrySet(entries, |entries|, chunk) ensures a in ChunkSet(chunk) {
      CountedIsAsked(entries, |entries|, chunk, a);
    }
  }

  lemma {:induction false} EntryIsCounted<K, T>(entries: seq<Entry<K, T>>, n: nat, chunk: Chunk<K>, i: nat)
    requires i < n <= |entries| && GoodEntries(entries, n, chunk)
    ensures GoodEntry(entries[i], chunk)
    ensures PieceSet(PieceFor(chunk, entries[i].key).value) <= EntrySet(entries, n, chunk)
    decreases n
  {
    if i < n - 1 {
      EntryIsCounted(entries, n - 1, chunk, i);
    }
  }

  lemma {:induction false} CountedIsAsked<K, T>(entries: seq<Entry<K, T>>, n: nat, chunk: Chunk<K>, a: Ask<K>)
    requires n <= |entries| && GoodEntries(entries, n, chunk) && a in EntrySet(entries, n, chunk)
    ensures a in ChunkSet(chunk)
    decreases n
  {
    assert GoodEntry(entries[n - 1], chunk);
    var p := PieceFor(chunk, entries[n - 1].key).value;
    if a !in PieceSet(p) {
      CountedIsAsked(entries, n - 1, chunk, a);
    }
  }

  /** Any reply whatever is accepted exactly when it is complete, and then adds totals for just what
      was asked, whatever the order of its entries and lines. */
  lemma {:induction false} ReplyIff<K, T>(
    reply: Reply<K, T>, chunk: Chunk<K>, merged: Totals<K, T>, asked: set<Ask<K>>)
    requires TidyChunk(chunk) && asked !! ChunkSet(chunk) && Holds(merged, asked)
    ensures ReadReply(reply, chunk, merged).Ok? <==> Complete(reply, chunk)
    ensures Complete(reply, chunk) ==> Holds(ReadReply(reply, chunk, merged).value, asked + ChunkSet(chunk))
  {
    if reply.Data? && |reply.entries| == |chunk| {
      var n := |reply.entries|;
      if GoodEntries(reply.entries, n, chunk) {
        ReadsGoodEntries(reply.entries, n, chunk, merged, asked);
        CompleteIsAll(reply.entries, chunk);
      } else {
        RefusesBadEntries(reply.entries, n, chunk, merged);
      }
    }
  }

  lemma {:induction false} HonestEntriesAreTruthful<K, T>(
    entries: seq<Entry<K, T>>, n: nat, chunk: Chunk<K>, merged: Totals<K, T>, truth: Truth<K, T>)
    requires n <= |entries| && HonestEntries(entries, truth) && Truthful(merged, truth)
    requires ReadEntries(entries, n, chunk, merged).Some?
    ensures Truthful(ReadEntries(entries, n, chunk, merged).value, truth)
    decreases n
  {
    if n > 0 {
      HonestEntriesAreTruthful(entries, n - 1, chunk, merged, truth);
      var e, before := entries[n - 1], ReadEntries(entries, n - 1, chunk, merged).value;
      assert HonestEntry(e, truth);
      var ids := PieceFor(chunk, e.key).value.ids;
      HonestLinesAreTruthful(e.lines, ids, (id: nat) => truth(e.key, id));
      MergeIsTruthful(before, e.key, ReadLines(e.lines, |e.lines|, ids).value, truth);
    }
  }

  /** What an accepted reply adds is what it says. */
  lemma {:induction false} ReplyIsTruthful<K, T>(
    reply: Reply<K, T>, chunk: Chunk<K>, merged: Totals<K, T>, truth: Truth<K, T>)
    requires reply.Data? ==> HonestEntries(reply.entries, truth)
    requires Truthful(merged, truth) && ReadReply(reply, chunk, merged).Ok?
    ensures Truthful(ReadReply(reply, chunk, merged).value, truth)
  {
    HonestEntriesAreTruthful(reply.entries, |reply.entries|, chunk, merged, truth);
  }

  /** How a reply fails: a refused request keeps its status if that is 401 or 403, everything else
      that is no answer is 502, and an answer that is not complete is a mismatch. */
  lemma {:induction false} ReplyFailures<K, T>(
    reply: Reply<K, T>, chunk: Chunk<K>, merged: Totals<K, T>, asked: set<Ask<K>>)
    requires TidyChunk(chunk) && asked !! ChunkSet(chunk) && Holds(merged, asked)
    ensures reply.NoReply? ==> ReadReply(reply, chunk, merged) == Failed(Unavailable(502))
    ensures reply == Status(401) ==> ReadReply(reply, chunk, merged) == Failed(Unavailable(401))
    ensures reply == Status(403) ==> ReadReply(reply, chunk, merged) == Failed(Unavailable(403))
    ensures reply.Status? && reply.code !in {401, 403} ==> ReadReply(reply, chunk, merged) == Failed(Unavailable(502))
    ensures (reply.BadBody? || reply.Data?) && !Complete(reply, chunk) ==> ReadReply(reply, chunk, merged) == Failed(Mismatch)
  {
    ReplyIff(reply, chunk, merged, asked);
  }

  // -- Calls in a row ---------------------------------------------------------------------------------------

  /** What step n makes of the totals so far. */
  type Step<!M> = (nat, M) -> Result<M>

  /** After the first n steps; a failure is final. */
  function Chain<M>(step: Step<M>, start: M, n: nat): Result<M> {
    if n == 0 then Ok(start)
    else
      match Chain(step, start, n - 1)
      case Failed(failure) => Failed(failure)
      case Ok(m) => step(n - 1, m)
  }

  lemma {:induction false} FailureIsFinal<M>(step: Step<M>, start: M, m: nat, n: nat)
    requires m <= n && Chain(step, start, m).Failed?
    ensures Chain(step, start, n) == Chain(step, start, m)
    decreases n
  {
    if m < n {
      FailureIsFinal(step, start, m, n - 1);
    }
  }

  /** If step k, from a state where `inv` holds, succeeds exactly when good(k) and then keeps `inv`, n
      steps succeed exactly when all of them are good. */
  lemma {:induction false} ChainIff<M>(step: Step<M>, start: M, n: nat, good: nat -> bool, inv: (nat, M) -> bool)
    requires inv(0, start)
    requires forall k: nat, m: M :: k < n && inv(k, m) ==>
               (step(k, m).Ok? <==> good(k)) && (good(k) ==> inv(k + 1, step(k, m).value))
    ensures Chain(step, start, n).Ok? <==> forall k :: 0 <= k < n ==> good(k)
    ensures Chain(step, start, n).Ok? ==> inv(n, Chain(step, start, n).value)
    decreases n
  {
    if n > 0 {
      ChainIff(step, start, n - 1, good, inv);
    }
  }

  /** Step after step; after a failure nothing more is done. */
  method RunInTurn<M>(step: Step<M>, start: M, total: nat) returns (r: Result<M>, calls: nat)
    ensures r == Chain(step, start, total)
    ensures r.Ok? ==> calls == total
    ensures r.Failed? ==> 0 < calls <= total && Chain(step, start, calls - 1).Ok? && Chain(step, start, calls) == r
  {
    r, calls := Ok(start), 0;
    while calls < total
      invariant calls <= total
      invariant r.Ok? && Chain(step, start, calls) == r
    {
      r := step(calls, r.value);
      calls := calls + 1;
      if r.Failed? {
        FailureIsFinal(step, start, calls, total);
        return;
      }
    }
  }

  /** The calls made when the first failing step is number `at`: its pair is finished, no later pair
      is started. */
  function CallsUntil(at: nat, total: nat): nat {
    var pair := at - at % 2 + 2;
    if pair < total then pair else total
  }

  /** The results of one pair, in order. */
  method FinishPair<M>(step: Step<M>, start: M, from: nat, end: nat, before: M) returns (r: Result<M>, ghost at: nat)
    requires from <= end && Chain(step, start, from) == Ok(before)
    ensures r.Ok? ==> Chain(step, start, end) == r
    ensures r.Failed? ==> from <= at < end && Chain(step, start, at).Ok? && Chain(step, start, at + 1) == r
  {
    r, at := Ok(before), from;
    for n := from to end
      invariant at == n && r.Ok? && Chain(step, start, n) == r
    {
      r := step(n, r.value);
      if r.Failed? {
        return;
      }
      at := n + 1;
    }
  }

  /** Whole pairs are begun, as few as reach the failing call. */
  lemma {:induction false} PairsAreFinished(at: nat, total: nat)
    requires at < total
    ensures var calls := CallsUntil(at, total);
            at < calls <= total && calls <= at + 2 && (calls == total || calls % 2 == 0)
  {}

  /** Two steps in flight at a time: both are started, then their results are taken in order. */
  method RunInPairs<M>(step: Step<M>, start: M, total: nat) returns (r: Result<M>, calls: nat, ghost at: nat)
    ensures r == Chain(step, start, total)
    ensures r.Ok? ==> calls == total
    ensures r.Failed? ==>
              && at < total && Chain(step, start, at).Ok? && Chain(step, start, at + 1) == r
              && calls == CallsUntil(at, total)
  {
    r, calls, at := Ok(start), 0, 0;
    var offset := 0;
    while offset < total
      invariant offset % 2 == 0
      invariant calls == if offset < total then offset else total
      invariant r.Ok? && Chain(step, start, calls) == r
    {
      calls := if offset + 2 < total then offset + 2 else total;
      r, at := FinishPair(step, start, offset, calls, r.value);
      if r.Failed? {
        FailureIsFinal(step, start, at + 1, total);
        return;
      }
      offset := offset + 2;
    }
  }

  // -- All requests, one after the other -------------------------------------------------------------------

  /** The answer of the upstream service to each call. */
  type Replies<K, T> = nat -> Reply<K, T>

  function Reading<K(==), T>(chunks: seq<Chunk<K>>, replies: Replies<K, T>): Step<Totals<K, T>> {
    (n: nat, merged: Totals<K, T>) =>
      if n < |chunks| then ReadReply(replies(n), chunks[n], merged) else Failed(Mismatch)
  }

  /** The whole batch. */
  function Fetch<K(==), T>(chunks: seq<Chunk<K>>, replies: Replies<K, T>): Result<Totals<K, T>> {
    Chain(Reading(chunks, replies), map[], |chunks|)
  }

  function AskedBy<K(==)>(chunks: seq<Chunk<K>>, n: nat): set<Ask<K>>
    requires n <= |chunks|
  {
    if n == 0 then {} else AskedBy(chunks, n - 1) + ChunkSet(chunks[n - 1])
  }

  /** No pair is asked for twice, within a request or across requests. */
  predicate Separate<K(==)>(chunks: seq<Chunk<K>>) {
    && (forall i :: 0 <= i < |chunks| ==> TidyChunk(chunks[i]))
    && (forall i :: 0 <= i < |chunks| ==> AskedBy(chunks, i) !! ChunkSet(chunks[i]))
  }

  /** Is the reply to the k-th request complete? */
  function Completes<K(==), T>(chunks: seq<Chunk<K>>, replies: Replies<K, T>): nat -> bool {
    (k: nat) => k < |chunks| && Complete(replies(k), chunks[k])
  }

  predicate AllComplete<K(==), T>(chunks: seq<Chunk<K>>, replies: Replies<K, T>, n: nat)
    requires n <= |chunks|
  {
    forall k :: 0 <= k < n ==> Completes(chunks, replies)(k)
  }

  ghost predicate AllHonest<K, T>(replies: Replies<K, T>, truth: Truth<K, T>) {
    forall i: nat :: replies(i).Data? ==> HonestEntries(replies(i).entries, truth)
  }

  /** After k requests the totals are for what those asked. */
  ghost function Gathers<K, T>(chunks: seq<Chunk<K>>): (nat, Totals<K, T>) -> bool {
    (k: nat, m: Totals<K, T>) => k <= |chunks| && Holds(m, AskedBy(chunks, k))
  }

  lemma {:induction false} NothingIsGathered<K, T>(chunks: seq<Chunk<K>>, none: Totals<K, T>)
    requires none == map[]
    ensures Gathers(chunks)(0, none)
  {
    NothingHoldsNothing(none);
    assert AskedBy(chunks, 0) == {};
    assert Holds(none, AskedBy(chunks, 0));
  }

  lemma {:induction false} ReadingIff<K, T>(
    chunks: seq<Chunk<K>>, replies: Replies<K, T>, k: nat, m: Totals<K, T>)
    requires k < |chunks| && Separate(chunks) && Gathers(chunks)(k, m)
    ensures Reading(chunks, replies)(k, m).Ok? <==> Completes(chunks, replies)(k)
    ensures Completes(chunks, replies)(k) ==> Gathers(chunks)(k + 1, Reading(chunks, replies)(k, m).value)
  {
    ReplyIff(replies(k), chunks[k], m, AskedBy(chunks, k));
    assert Reading(chunks, replies)(k, m) == ReadReply(replies(k), chunks[k], m);
    assert Completes(chunks, replies)(k) == Complete(replies(k), chunks[k]);
    assert AskedBy(chunks, k + 1) == AskedBy(chunks, k) + ChunkSet(chunks[k]);
  }

  /** Whatever the service replies, the batch succeeds exactly when every reply is complete; then it
      has totals for every pair asked for and no other. */
  lemma {:induction false} FetchIff<K, T>(chunks: seq<Chunk<K>>, replies: Replies<K, T>)
    requires Separate(chunks)
    ensures Fetch(chunks, replies).Ok? <==> AllComplete(chunks, replies, |chunks|)
    ensures Fetch(chunks, replies).Ok? ==> Holds(Fetch(chunks, replies).value, AskedBy(chunks, |chunks|))
  {
    var step, good := Reading(chunks, replies), Completes(chunks, replies);
    ghost var inv := Gathers<K, T>(chunks);
    NothingIsGathered<K, T>(chunks, map[]);
    forall k: nat, m: Totals<K, T> | k < |chunks| && inv(k, m)
      ensures (step(k, m).Ok? <==> good(k)) && (good(k) ==> inv(k + 1, step(k, m).value))
    {
      ReadingIff(chunks, replies, k, m);
    }
    ChainIff(step, map[], |chunks|, good, inv);
  }

  /** The totals gathered are the ones the service means. */
  lemma {:induction false} GatheredTotalsAreTruthful<K, T>(
    chunks: seq<Chunk<K>>, replies: Replies<K, T>, n: nat, truth: Truth<K, T>)
    requires n <= |chunks| && AllHonest(replies, truth)
    requires Chain(Reading(chunks, replies), map[], n).Ok?
    ensures Truthful(Chain(Reading(chunks, replies), map[], n).value, truth)
    decreases n
  {
    if n == 0 {
      NothingIsTruthful<K, T>(map[], truth);
    } else {
      GatheredTotalsAreTruthful(chunks, replies, n - 1, truth);
      ReplyIsTruthful(replies(n - 1), chunks[n - 1], Chain(Reading(chunks, replies), map[], n - 1).value, truth);
    }
  }

  /** Calls the service for one request after the other. After a reply that is not accepted no
      further call is made and no totals are returned. */
  method FetchAll<K(==), T>(chunks: seq<Chunk<K>>, replies: Replies<K, T>)
    returns (r: Result<Totals<K, T>>, calls: nat)
    ensures r == Fetch(chunks, replies)
    ensures r.Ok? ==> calls == |chunks|
    ensures r.Failed? ==>
              && 0 < calls <= |chunks|
              && Chain(Reading(chunks, replies), map[], calls - 1).Ok?
              && Chain(Reading(chunks, replies), map[], calls) == r
  {
    r, calls := RunInTurn(Reading(chunks, replies), map[], |chunks|);
  }

  // -- The requests of a batch are separate ---------------------------------------------------------------

  ghost function SetOf<T>(s: seq<T>): set<T> {
    set x | x in s
  }

  lemma {:induction false} PieceSetIsAsks<K>(p: Piece<K>)
    ensures PieceSet(p) == SetOf(PieceAsks(p))
  {
    forall a | a in PieceSet(p) ensures a in PieceAsks(p) {
      var i :| 0 <= i < |p.ids| && p.ids[i] == a.id;
      assert PieceAsks(p)[i] == a;
    }
  }

  lemma {:induction false} ChunkSetIsAsks<K>(chunk: Chunk<K>)
    ensures ChunkSet(chunk) == SetOf(ChunkAsks(chunk))
    decreases |chunk|
  {
    if chunk != [] {
      ChunkSetIsAsks(chunk[1..]);
      PieceSetIsAsks(chunk[0]);
      assert ChunkSet(chunk) == PieceSet(chunk[0]) + ChunkSet(chunk[1..]);
    }
  }

  lemma {:induction false} AskedByIsAsks<K>(chunks: seq<Chunk<K>>, n: nat)
    requires n <= |chunks|
    ensures AskedBy(chunks, n) == SetOf(AllAsks(chunks[..n]))
    decreases n
  {
    if n > 0 {
      AskedByIsAsks(chunks, n - 1);
      ChunkSetIsAsks(chunks[n - 1]);
      assert chunks[..n] == chunks[..n - 1] + [chunks[n - 1]];
      AllAsksAppends(chunks[..n - 1], [chunks[n - 1]]);
      assert AllAsks([chunks[n - 1]]) == ChunkAsks(chunks[n - 1]) + AllAsks([]);
    } else {
      assert chunks[..0] == [];
    }
  }

  lemma {:induction false} PartsDoNotRepeat<T>(a: seq<T>, b: seq<T>)
    requires NoRepeats(a + b)
    ensures NoRepeats(a) && NoRepeats(b) && SetOf(a) !! SetOf(b)
  {
    var s := a + b;
    assert forall i :: 0 <= i < |a| ==> s[i] == a[i];
    assert forall i :: 0 <= i < |b| ==> s[|a| + i] == b[i];
  }

  lemma {:induction false} PieceIdsDoNotRepeat<K>(chunk: Chunk<K>, i: nat)
    requires NoRepeats(ChunkAsks(chunk)) && i < |chunk|
    ensures NoRepeats(chunk[i].ids)
    decreases |chunk|
  {
    PartsDoNotRepeat(PieceAsks(chunk[0]), ChunkAsks(chunk[1..]));
    if i > 0 {
      PieceIdsDoNotRepeat(chunk[1..], i - 1);
    } else {
      var p := chunk[0];
      forall j, k | 0 <= j < k < |p.ids| ensures p.ids[j] != p.ids[k] {
        assert PieceAsks(p)[j] != PieceAsks(p)[k];
      }
    }
  }

  lemma {:induction false} ChunkAsksDoNotRepeat<K>(chunks: seq<Chunk<K>>, n: nat)
    requires n < |chunks| && NoRepeats(AllAsks(chunks))
    ensures NoRepeats(ChunkAsks(chunks[n]))
    ensures AskedBy(chunks, n) !! ChunkSet(chunks[n])
  {
    assert chunks == chunks[..n] + chunks[n..];
    AllAsksAppends(chunks[..n], chunks[n..]);
    PartsDoNotRepeat(AllAsks(chunks[..n]), AllAsks(chunks[n..]));
    PartsDoNotRepeat(ChunkAsks(chunks[n]), AllAsks(chunks[n + 1..]));
    assert chunks[n..][1..] == chunks[n + 1..];
    AskedByIsAsks(chunks, n);
    ChunkSetIsAsks(chunks[n]);
    assert SetOf(ChunkAsks(chunks[n])) <= SetOf(AllAsks(chunks[n..]));
  }

  /** Distinct pairs cut into bounded requests give separate requests. */
  lemma {:induction false} CutsAreSeparate<K>(chunks: seq<Chunk<K>>, url: UrlLength<K>)
    requires AllBounded(chunks, url) && NoRepeats(AllAsks(chunks))
    ensures Separate(chunks)
  {
    forall n | 0 <= n < |chunks|
      ensures TidyChunk(chunks[n]) && AskedBy(chunks, n) !! ChunkSet(chunks[n])
    {
      ChunkAsksDoNotRepeat(chunks, n);
      assert Bounded(chunks[n], url);
      forall i | 0 <= i < |chunks[n]| ensures TidyPiece(chunks[n][i]) {
        PieceIdsDoNotRepeat(chunks[n], i);
      }
    }
  }

  // -- The route that asks period by period -----------------------------------------------------------------

  datatype PeriodReply<T> = NoAnswer | Denied(code: nat) | Unreadable | Lines(lines: seq<Line<T>>)

  /** One period on its own: every line must be for a client asked for, none twice. Whether all
      clients are there is checked later, when the rows look up their totals. */
  function ReadPeriod<T>(reply: PeriodReply<T>, ids: seq<nat>): Result<map<nat, T>> {
    match reply
    case NoAnswer => Failed(Unavailable(502))
    case Denied(code) => Failed(Unavailable(if code == 401 || code == 403 then code else 502))
    case Unreadable => Failed(Mismatch)
    case Lines(lines) =>
      match ReadLines(lines, |lines|, ids)
      case None => Failed(Mismatch)
      case Some(received) => Ok(received)
  }

  function Asking<K(==), T>(periods: seq<Piece<K>>, replies: nat -> PeriodReply<T>): Step<Totals<K, T>> {
    (n: nat, totals: Totals<K, T>) =>
      if n >= |periods| then Failed(Mismatch)
      else
        match ReadPeriod(replies(n), periods[n].ids)
        case Failed(failure) => Failed(failure)
        case Ok(received) => Ok(totals[periods[n].key := received])
  }

  function Route<K(==), T>(periods: seq<Piece<K>>, replies: nat -> PeriodReply<T>): Result<Totals<K, T>> {
    Chain(Asking(periods, replies), map[], |periods|)
  }

  /** Two periods at a time. */
  method FetchInPairs<K(==), T>(periods: seq<Piece<K>>, replies: nat -> PeriodReply<T>)
    returns (r: Result<Totals<K, T>>, calls: nat, ghost at: nat)
    ensures r == Route(periods, replies)
    ensures r.Ok? ==> calls == |periods|
    ensures r.Failed? ==>
              && at < |periods| && Chain(Asking(periods, replies), map[], at).Ok?
              && Chain(Asking(periods, replies), map[], at + 1) == r && calls == CallsUntil(at, |periods|)
  {
    r, calls, at := RunInPairs(Asking(periods, replies), map[], |periods|);
  }

  /** A complete and honest answer for one period. */
  predicate PeriodAnswered<K(==), T(==)>(p: Piece<K>, reply: PeriodReply<T>, truth: Truth<K, T>) {
    && reply.Lines? && |reply.lines| == |p.ids|
    && GoodLines(reply.lines, |reply.lines|, p.ids)
    && Honest(reply.lines, (id: nat) => truth(p.key, id))
  }

  ghost predicate AllAnswered<K, T>(periods: seq<Piece<K>>, replies: nat -> PeriodReply<T>, truth: Truth<K, T>) {
    forall i :: 0 <= i < |periods| ==> TidyPiece(periods[i]) && PeriodAnswered(periods[i], replies(i), truth)
  }

  lemma {:induction false} NextPeriod<K, T>(
    periods: seq<Piece<K>>, replies: nat -> PeriodReply<T>, n: nat, totals: Totals<K, T>, truth: Truth<K, T>)
    requires n < |periods| && DistinctKeys(periods) && AllAnswered(periods, replies, truth)
    requires IsAnswer(totals, ChunkSet(periods[..n]), truth)
    ensures ReadPeriod(replies(n), periods[n].ids).Ok?
    ensures IsAnswer(totals[periods[n].key := ReadPeriod(replies(n), periods[n].ids).value],
                     ChunkSet(periods[..n + 1]), truth)
  {
    var p, reply := periods[n], replies(n);
    assert TidyPiece(p) && PeriodAnswered(p, reply, truth);
    GoodEntryReceives(Entry(p.key, reply.lines), p);
    HonestLinesAreTruthful(reply.lines, p.ids, (id: nat) => truth(p.key, id));
    var asked := ChunkSet(periods[..n]);
    var received := ReadPeriod(reply, p.ids).value;
    NewKeyIsFree(periods, n, totals);
    MergeHolds(totals, asked, p, received);
    MergeIsTruthful(totals, p.key, received, truth);
    assert map[] + received == received;
    assert periods[..n + 1] == periods[..n] + [p];
    assert ChunkSet(periods[..n + 1]) == asked + PieceSet(p);
  }

  lemma {:induction false} AnsweredKeyWasAsked<K, T>(totals: Totals<K, T>, asked: set<Ask<K>>, key: K)
    requires Holds(totals, asked) && key in totals
    ensures exists a :: a in asked && a.key == key
  {
    HoldsMeans(totals, asked);
    var id :| id in totals[key].Keys;
    assert Ask(key, id) in asked;
  }

  lemma {:induction false} NewKeyIsFree<K, T>(periods: seq<Piece<K>>, n: nat, totals: Totals<K, T>)
    requires n < |periods| && DistinctKeys(periods) && Holds(totals, ChunkSet(periods[..n]))
    ensures periods[n].key !in totals
    ensures ChunkSet(periods[..n]) !! PieceSet(periods[n])
  {
    var key := periods[n].key;
    forall a | a in ChunkSet(periods[..n]) ensures a.key != key {
      var p :| p in periods[..n] && a in PieceSet(p);
      var j :| 0 <= j < n && periods[j] == p;
    }
    if key in totals {
      AnsweredKeyWasAsked(totals, ChunkSet(periods[..n]), key);
    }
  }

  lemma {:induction false} RouteAnswers<K, T>(
    periods: seq<Piece<K>>, replies: nat -> PeriodReply<T>, truth: Truth<K, T>)
    requires DistinctKeys(periods) && AllAnswered(periods, replies, truth)
    ensures Route(periods, replies).Ok?
    ensures IsAnswer(Route(periods, replies).value, ChunkSet(periods), truth)
  {
    var step := Asking(periods, replies);
    ghost var inv := (k: nat, m: Totals<K, T>) => k <= |periods| && IsAnswer(m, ChunkSet(periods[..k]), truth);
    assert periods[..0] == [] && ChunkSet(periods[..0]) == {};
    NothingHoldsNothing<K, T>(map[]);
    forall k: nat, m: Totals<K, T> | k < |periods| && inv(k, m)
      ensures step(k, m).Ok? && inv(k + 1, step(k, m).value)
    {
      NextPeriod(periods, replies, k, m, truth);
    }
    ChainIff(step, map[], |periods|, (k: nat) => true, inv);
    assert periods[..|periods|] == periods;
  }

  /** Does the answer for the k-th period have readable lines for its clients only, none twice? */
  function Readable<K(==), T>(periods: seq<Piece<K>>, replies: nat -> PeriodReply<T>): nat -> bool {
    (k: nat) =>
      && k < |periods| && replies(k).Lines?
      && GoodLines(replies(k).lines, |replies(k).lines|, periods[k].ids)
  }

  lemma {:induction false} PeriodIsReadIff<T>(reply: PeriodReply<T>, ids: seq<nat>)
    ensures ReadPeriod(reply, ids).Ok? <==> reply.Lines? && GoodLines(reply.lines, |reply.lines|, ids)
    ensures reply.NoAnswer? ==> ReadPeriod(reply, ids) == Failed(Unavailable(502))
    ensures reply == Denied(401) ==> ReadPeriod(reply, ids) == Failed(Unavailable(401))
    ensures reply == Denied(403) ==> ReadPeriod(reply, ids) == Failed(Unavailable(403))
    ensures reply.Denied? && reply.code !in {401, 403} ==> ReadPeriod(reply, ids) == Failed(Unavailable(502))
    ensures (reply.Unreadable? || (reply.Lines? && !GoodLines(reply.lines, |reply.lines|, ids)))
              ==> ReadPeriod(reply, ids) == Failed(Mismatch)
  {
    if reply.Lines? {
      ReadLinesIff(reply.lines, |reply.lines|, ids);
    }
  }

  /** Whatever is answered, the route that asks period by period succeeds exactly when every answer is
      readable; whether all clients are there it leaves to the rows that look for them. */
  lemma {:induction false} RouteIff<K, T>(periods: seq<Piece<K>>, replies: nat -> PeriodReply<T>)
    ensures Route(periods, replies).Ok? <==> forall k :: 0 <= k < |periods| ==> Readable(periods, replies)(k)
  {
    var step, good := Asking(periods, replies), Readable(periods, replies);
    ghost var inv := (k: nat, m: Totals<K, T>) => true;
    forall k: nat, m: Totals<K, T> | k < |periods| && inv(k, m)
      ensures (step(k, m).Ok? <==> good(k)) && (good(k) ==> inv(k + 1, step(k, m).value))
    {
      PeriodIsReadIff(replies(k), periods[k].ids);
    }
    ChainIff(step, map[], |periods|, good, inv);
  }

  // -- Both routes -----------------------------------------------------------------------------------------------

  lemma {:induction false} AsksOfIsChunkSet<K>(periods: seq<Piece<K>>)
    ensures SetOf(AsksOf(periods)) == ChunkSet(periods)
    decreases |periods|
  {
    if periods != [] {
      var front, p := periods[..|periods| - 1], periods[|periods| - 1];
      AsksOfIsChunkSet(front);
      PieceSetIsAsks(p);
      assert periods == front + [p];
      assert ChunkSet(periods) == ChunkSet(front) + PieceSet(p);
      assert SetOf(AsksOf(periods)) == SetOf(AsksOf(front)) + SetOf(PieceAsks(p));
    }
  }

  /** The fast form refines the simple one: when the service answers both truthfully and completely,
      the batched calls give exactly the totals of the period-by-period route. */
  lemma {:induction false} BatchEqualsRoute<K, T>(
    periods: seq<Piece<K>>, chunks: seq<Chunk<K>>, url: UrlLength<K>,
    batched: Replies<K, T>, single: nat -> PeriodReply<T>, truth: Truth<K, T>)
    requires DistinctKeys(periods) && NoRepeats(AsksOf(periods))
    requires AllAsks(chunks) == AsksOf(periods) && AllBounded(chunks, url)
    requires AllHonest(batched, truth) && AllComplete(chunks, batched, |chunks|)
    requires AllAnswered(periods, single, truth)
    ensures Fetch(chunks, batched).Ok?
    ensures Fetch(chunks, batched) == Route(periods, single)
  {
    CutsAreSeparate(chunks, url);
    FetchIff(chunks, batched);
    GatheredTotalsAreTruthful(chunks, batched, |chunks|, truth);
    AskedByIsAsks(chunks, |chunks|);
    assert chunks[..|chunks|] == chunks;
    AsksOfIsChunkSet(periods);
    RouteAnswers(periods, single, truth);
    AnswerIsUnique(Fetch(chunks, batched).value, Route(periods, single).value, ChunkSet(periods), truth);
  }

  // -- From the input to the result -----------------------------------------------------------------------------------

  predicate AllTidy<K>(periods: seq<Piece<K>>) {
    forall i :: 0 <= i < |periods| ==> TidyPiece(periods[i])
  }

  lemma {:induction false} AsksDoNotRepeat<K>(periods: seq<Piece<K>>)
    requires DistinctKeys(periods) && AllTidy(periods)
    ensures NoRepeats(AsksOf(periods))
    decreases |periods|
  {
    if periods != [] {
      var n := |periods| - 1;
      var front, last := AsksOf(periods[..n]), PieceAsks(periods[n]);
      AsksDoNotRepeat(periods[..n]);
      assert TidyPiece(periods[n]);
      forall i | 0 <= i < |front| ensures front[i].key != periods[n].key {
        AskKeysAreKeys(periods[..n], i);
      }
      forall i, j | 0 <= i < j < |front + last| ensures (front + last)[i] != (front + last)[j] {
        assert j < |front| ==> front[i] != front[j];
        assert i >= |front| ==> last[i - |front|].id != last[j - |front|].id;
      }
    }
  }

  /** Whatever the input and the URLs: if the batch route sends anything, and the service answers
      truthfully and completely, its result is that of the period-by-period route. */
  lemma {:induction false} BatchedRouteEqualsRoute<K, T>(
    periods: seq<Piece<K>>, valid: K -> bool, url: UrlLength<K>,
    batched: Replies<K, T>, single: nat -> PeriodReply<T>, truth: Truth<K, T>)
    requires DistinctKeys(periods) && Requests(periods, valid, url).Some?
    requires AllHonest(batched, truth) && AllAnswered(periods, single, truth)
    requires var chunks := Requests(periods, valid, url).value; AllComplete(chunks, batched, |chunks|)
    ensures Fetch(Requests(periods, valid, url).value, batched).Ok?
    ensures Fetch(Requests(periods, valid, url).value, batched) == Route(periods, single)
  {
    var chunks := Requests(periods, valid, url).value;
    forall i | 0 <= i < |periods| ensures TidyPiece(periods[i]) {
      assert Admitted(periods[i], valid);
    }
    AsksDoNotRepeat(periods);
    AsksAreInRuns(periods);
    ChunksCarryEveryPair(AsksOf(periods), url);
    BatchEqualsRoute(periods, chunks, url, batched, single, truth);
  }

  /** fetchCanonicalInvoiceTotalsBatch. */
  method FetchBatch<K(==), T>(
    configured: bool, periods: seq<Piece<K>>, valid: K -> bool, url: UrlLength<K>, replies: Replies<K, T>)
    returns (r: Result<Totals<K, T>>, calls: nat)
    ensures periods == [] ==> r == Ok(map[]) && calls == 0
    ensures periods != [] && !configured ==> r == Failed(Unavailable(503)) && calls == 0
    ensures periods != [] && configured && Requests(periods, valid, url).None? ==> r == Failed(Mismatch) && calls == 0
    ensures periods != [] && configured && Requests(periods, valid, url).Some? ==>
              var chunks := Requests(periods, valid, url).value;
              && r == Fetch(chunks, replies)
              && (r.Ok? ==> calls == |chunks|)
              && (r.Failed? ==>
                    && 0 < calls <= |chunks|
                    && Chain(Reading(chunks, replies), map[], calls - 1).Ok?
                    && Chain(Reading(chunks, replies), map[], calls) == r)
  {
    if |periods| == 0 {
      return Ok(map[]), 0;
    }
    if !configured {
      return Failed(Unavailable(503)), 0;
    }
    var chunks := CutRequests(periods, valid, url);
    if chunks.None? {
      return Failed(Mismatch), 0;
    }
    r, calls := FetchAll(chunks.value, replies);
  }
}
