/** The loopback PostgreSQL peer of the pipeline check: a streaming decoder over a buffer
    that grows by arbitrary chunks, and the per-socket query, transaction and poison state.
    Frames follow "Message Formats" of the PostgreSQL frontend/backend protocol 3.0: a type
    byte (absent at startup) and a signed 32-bit length that counts itself. */
module WirePeer {

  newtype byte = x: int | 0 <= x < 256

  type Frame = seq<byte>

  // -- Framing -----------------------------------------------------------------

  function Int32BE(b: seq<byte>, at: nat): (n: int)
    requires at + 4 <= |b|
    ensures -0x8000_0000 <= n < 0x8000_0000
  {
    var u := ((b[at] as int * 256 + b[at + 1] as int) * 256 + b[at + 2] as int) * 256 + b[at + 3] as int;
    if u < 0x8000_0000 then u else u - 0x1_0000_0000
  }

  function HeaderSize(startup: bool): nat {
    if startup then 4 else 5
  }

  /** The length of the frame at the head of the buffer, as the header announces it. */
  function Announced(startup: bool, b: seq<byte>): int
    requires |b| >= HeaderSize(startup)
  {
    if startup then Int32BE(b, 0) else Int32BE(b, 1) + 1
  }

  predicate HasFrame(startup: bool, b: seq<byte>) {
    |b| >= HeaderSize(startup) && |b| >= Announced(startup, b)
  }

  /** Where Buffer.subarray cuts for index n: negative indexes count from the end. */
  function CutAt(b: seq<byte>, n: int): nat
    requires n <= |b|
    ensures CutAt(b, n) <= |b|
  {
    if n >= 0 then n else if |b| + n >= 0 then |b| + n else 0
  }

  /** No header of the stream announces a negative length. */
  predicate WellFormed(startup: bool, b: seq<byte>)
    decreases |b|, startup
  {
    |b| >= HeaderSize(startup) ==>
      var n := Announced(startup, b);
      && n >= 0
      && (HasFrame(startup, b) && (startup || n > 0) ==> WellFormed(false, b[n..]))
  }

  // -- The peer --------------------------------------------------------------------

  datatype Reply =
    | ParseComplete
    | ParameterDescription
    | RowDescription
    | NoData
    | BindComplete
    | DataRow
    | SelectOne                         // CommandComplete with tag SELECT 1
    | CommandComplete(command: Command) // CommandComplete with the command as its tag

  /** Replies of one query followed by ReadyForQuery, whose status byte is T or I. */
  datatype Answer = Answer(replies: seq<Reply>, inTransaction: bool)

  datatype Write = Greeting | Response(answer: Answer)

  datatype Peer =
    | Dead    // an unexpected message type threw
    | Live(buffer: seq<byte>, startup: bool,
           outstanding: int, maxOutstanding: int, poisoned: bool,
           inTransaction: bool, command: Command, replies: seq<Reply>,
           pending: seq<Answer>,      // armed timers
           written: seq<Write>, ended: bool, destroyed: bool)

  const FRESH := Live([], true, 0, 0, false, false, Select, [], [], [], false, false)

  /** After the startup packet. */
  const READY := FRESH.(startup := false)

  predicate IsSpace(b: byte) {
    b == 32 || 9 <= b <= 13
  }

  function UpperChar(b: byte): char {
    if 97 <= b <= 122 then (b - 32) as int as char else b as int as char
  }

  /** trim, then the first word up to white space or NUL, in upper case */
  function FirstWord(text: seq<byte>): string {
    if text != [] && IsSpace(text[0]) then FirstWord(text[1..]) else WordPrefix(text)
  }

  function WordPrefix(text: seq<byte>): string {
    if text == [] || IsSpace(text[0]) || text[0] == 0 then "" else [UpperChar(text[0])] + WordPrefix(text[1..])
  }

  /** One past the first NUL at or after index 5; 0 when there is none. */
  function AfterName(frame: Frame, from: nat): nat
    requires from <= |frame|
    ensures AfterName(frame, from) <= |frame|
    decreases |frame| - from
  {
    if from == |frame| then 0
    else if frame[from] == 0 then from + 1
    else AfterName(frame, from + 1)
  }

  /** The message types the peer answers, by their type byte. */
  datatype Kind = Parse | Describe | Bind | Execute | Sync | Simple | Terminate | Unexpected

  function KindOf(frame: Frame): Kind {
    if frame == [] then Unexpected
    else if frame[0] == 80 then Parse       // P
    else if frame[0] == 68 then Describe    // D
    else if frame[0] == 66 then Bind        // B
    else if frame[0] == 69 then Execute     // E
    else if frame[0] == 83 then Sync        // S
    else if frame[0] == 81 then Simple      // Q
    else if frame[0] == 88 then Terminate   // X
    else Unexpected
  }

  /** The first word of the query text; the peer treats four of them specially. */
  datatype Command = Select | Begin | Commit | Rollback | Other(word: string)

  function CommandNamed(word: string): Command {
    if word == "SELECT" then Select
    else if word == "BEGIN" then Begin
    else if word == "COMMIT" then Commit
    else if word == "ROLLBACK" then Rollback
    else Other(word)
  }

  function CommandOf(frame: Frame): Command {
    if KindOf(frame).Parse?
    then CommandNamed(FirstWord(frame[if |frame| < 5 then 0 else AfterName(frame, 5)..]))
    else CommandNamed(FirstWord(if |frame| < 5 then [] else frame[5..]))
  }

  function Started(p: Peer): (q: Peer)
    requires p.Live?
    ensures q.Live?
  {
    var n := p.outstanding + 1;
    p.(outstanding := n,
       maxOutstanding := if n > p.maxOutstanding then n else p.maxOutstanding,
       poisoned := p.poisoned || n > 1)
  }

  function TransactionAfter(inTransaction: bool, command: Command): bool {
    match command
    case Begin => true
    case Commit => false
    case Rollback => false
    case _ => inTransaction
  }

  function Finished(p: Peer): (q: Peer)
    requires p.Live?
    ensures q.Live?
  {
    var tx := TransactionAfter(p.inTransaction, p.command);
    p.(inTransaction := tx, replies := [], pending := p.pending + [Answer(p.replies, tx)])
  }

  /** What one frame adds to the replies, given the command in force. */
  function RepliesTo(frame: Frame, command: Command): seq<Reply> {
    match KindOf(frame)
    case Parse => [ParseComplete]
    case Describe => [ParameterDescription, if command.Select? then RowDescription else NoData]
    case Bind => [BindComplete]
    case Execute => if command.Select? then [DataRow, SelectOne] else [CommandComplete(command)]
    case Simple => [CommandComplete(command)]
    case _ => []
  }

  function Dispatch(p: Peer, frame: Frame): (q: Peer)
    requires p.Live? && !p.startup
    ensures q.Live? ==> frame != [] && q.buffer == p.buffer && !q.startup
  {
    match KindOf(frame)
    case Parse =>
      var c := CommandOf(frame);
      Started(p).(command := c, replies := p.replies + RepliesTo(frame, c))
    case Describe => p.(replies := p.replies + RepliesTo(frame, p.command))
    case Bind => p.(replies := p.replies + RepliesTo(frame, p.command))
    case Execute => p.(replies := p.replies + RepliesTo(frame, p.command))
    case Sync => Finished(p)
    case Simple =>
      var c := CommandOf(frame);
      Finished(Started(p).(command := c, replies := p.replies + RepliesTo(frame, c)))
    case Terminate => p.(ended := true)
    case Unexpected => Dead
  }

  function Send(p: Peer, w: Write): Peer
    requires p.Live?
  {
    if p.ended || p.destroyed then p else p.(written := p.written + [w])
  }

  function Measure(p: Peer): nat {
    if p.Dead? then 0 else 2 * |p.buffer| + (if p.startup then 2 else 1)
  }

  /** One turn of the decoder loop. */
  function Turn(p: Peer): (q: Peer)
    requires p.Live? && HasFrame(p.startup, p.buffer)
    ensures Measure(q) < Measure(p)
  {
    var k := CutAt(p.buffer, Announced(p.startup, p.buffer));
    var rest := p.(buffer := p.buffer[k..]);
    if p.startup then Send(rest.(startup := false), Greeting) else Dispatch(rest, p.buffer[..k])
  }

  /** The loop, on every input: it always terminates. */
  function Drain(p: Peer): (q: Peer)
    ensures q.Live? ==> !HasFrame(q.startup, q.buffer)
    decreases Measure(p)
  {
    if p.Dead? || !HasFrame(p.startup, p.buffer) then p else Drain(Turn(p))
  }

  function OnData(p: Peer, data: seq<byte>): Peer {
    if p.Dead? then Dead else Drain(p.(buffer := p.buffer + data))
  }

  /** A reply timer fires: a poisoned or destroyed socket loses the reply. */
  function OnTimer(p: Peer, i: nat): Peer {
    if p.Dead? || i >= |p.pending| then p
    else
      var q := p.(pending := p.pending[..i] + p.pending[i + 1..]);
      if p.poisoned || p.destroyed then q
      else Send(q.(outstanding := p.outstanding - 1), Response(p.pending[i]))
  }

  function OnClose(p: Peer): Peer {
    if p.Dead? then p else p.(destroyed := true)
  }

  // -- Chunking does not matter ----------------------------------------------------------

  /** The same peer with b in its buffer and w written. */
  function Placed(p: Peer, b: seq<byte>, w: seq<Write>): Peer {
    if p.Dead? then Dead else p.(buffer := b, written := w)
  }

  lemma {:induction false} StartedIgnoresBuffer(p: Peer, b: seq<byte>, w: seq<Write>)
    requires p.Live?
    ensures Started(Placed(p, b, w)) == Placed(Started(p), b, w)
  {
  }

  lemma {:induction false} FinishedIgnoresBuffer(p: Peer, b: seq<byte>, w: seq<Write>)
    requires p.Live?
    ensures Finished(Placed(p, b, w)) == Placed(Finished(p), b, w)
  {
  }

  lemma {:induction false} QueryIgnoresBuffer(p: Peer, frame: Frame, b: seq<byte>, w: seq<Write>)
    requires p.Live? && !p.startup && (KindOf(frame).Parse? || KindOf(frame).Simple?)
    ensures Dispatch(Placed(p, b, w), frame) == Placed(Dispatch(p, frame), b, w)
  {
    var c := CommandOf(frame);
    assert Started(p).Live?;
    var asked := Started(p).(command := c, replies := p.replies + RepliesTo(frame, c));
    StartedIgnoresBuffer(p, b, w);
    FinishedIgnoresBuffer(asked, b, w);
    assert Started(Placed(p, b, w)).(command := c, replies := p.replies + RepliesTo(frame, c)) == Placed(asked, b, w);
  }

  /** A frame is answered without regard to what else is in the buffer or was written before. */
  lemma {:induction false} DispatchIgnoresBuffer(p: Peer, frame: Frame, b: seq<byte>, w: seq<Write>)
    requires p.Live? && !p.startup
    ensures Dispatch(Placed(p, b, w), frame) == Placed(Dispatch(p, frame), b, w)
  {
    if KindOf(frame).Parse? || KindOf(frame).Simple? {
      QueryIgnoresBuffer(p, frame, b, w);
    } else if KindOf(frame).Sync? {
      FinishedIgnoresBuffer(p, b, w);
    }
  }

  lemma {:induction false} HeaderIsStable(startup: bool, b: seq<byte>, more: seq<byte>)
    requires |b| >= HeaderSize(startup)
    ensures Announced(startup, b + more) == Announced(startup, b)
  {
  }

  lemma {:induction false} TurnWithMore(p: Peer, more: seq<byte>)
    requires p.Live? && HasFrame(p.startup, p.buffer) && Announced(p.startup, p.buffer) >= 0
    ensures HasFrame(p.startup, p.buffer + more)
    ensures var q := Turn(p);
            Turn(p.(buffer := p.buffer + more)) == if q.Dead? then Dead else q.(buffer := q.buffer + more)
  {
    HeaderIsStable(p.startup, p.buffer, more);
    var n := Announced(p.startup, p.buffer);
    assert (p.buffer + more)[..n] == p.buffer[..n];
    assert (p.buffer + more)[n..] == p.buffer[n..] + more;
    if !p.startup {
      DispatchIgnoresBuffer(p.(buffer := p.buffer[n..]), p.buffer[..n], p.buffer[n..] + more, p.written);
      DispatchWritesNothing(p.(buffer := p.buffer[n..]), p.buffer[..n]);
    }
  }

  /** Draining early and then reading more is draining once with everything. */
  lemma {:induction false} DrainThenMore(p: Peer, more: seq<byte>)
    requires p.Live? && WellFormed(p.startup, p.buffer + more)
    ensures OnData(Drain(p), more) == Drain(p.(buffer := p.buffer + more))
    ensures Drain(p).Live? ==> WellFormed(Drain(p).startup, Drain(p).buffer + more)
    decreases Measure(p)
  {
    if HasFrame(p.startup, p.buffer) {
      HeaderIsStable(p.startup, p.buffer, more);
      TurnWithMore(p, more);
      var n := Announced(p.startup, p.buffer);
      assert (p.buffer + more)[n..] == p.buffer[n..] + more;
      var q := Turn(p);
      if q.Live? {
        assert q.buffer == p.buffer[n..];
        DrainThenMore(q, more);
      }
    }
  }

  function Flatten(chunks: seq<seq<byte>>): seq<byte> {
    if chunks == [] then [] else chunks[0] + Flatten(chunks[1..])
  }

  function Feed(p: Peer, chunks: seq<seq<byte>>): Peer
    decreases |chunks|
  {
    if chunks == [] then p else Feed(OnData(p, chunks[0]), chunks[1..])
  }

  /** Any split of a stream into data events leaves the peer in the same state as the whole. */
  lemma {:induction false} ChunkingDoesNotMatter(p: Peer, chunks: seq<seq<byte>>)
    requires p.Live? && !HasFrame(p.startup, p.buffer)
    requires WellFormed(p.startup, p.buffer + Flatten(chunks))
    ensures Feed(p, chunks) == OnData(p, Flatten(chunks))
    decreases |chunks|
  {
    if chunks == [] {
      assert p.buffer + [] == p.buffer;
    } else {
      var rest := Flatten(chunks[1..]);
      var head := p.(buffer := p.buffer + chunks[0]);
      assert p.buffer + (chunks[0] + rest) == head.buffer + rest;
      DrainThenMore(head, rest);
      var q := OnData(p, chunks[0]);
      if q.Live? {
        ChunkingDoesNotMatter(q, chunks[1..]);
      } else {
        FeedDead(chunks[1..]);
      }
    }
  }

  lemma {:induction false} FeedDead(chunks: seq<seq<byte>>)
    ensures Feed(Dead, chunks) == Dead
    decreases |chunks|
  {
    if chunks != [] {
      FeedDead(chunks[1..]);
    }
  }

  /** A negative length makes the cut depend on how much has arrived, so the proviso is needed. */
  lemma {:induction false} NegativeLengthDependsOnChunks()
    ensures var a: seq<byte>, b: seq<byte> := [66, 255, 255, 255, 252], [66, 66];
            OnData(OnData(READY, a), b) != OnData(READY, a + b)
  {
    var p := READY;
    // type B, length -4: the frame is everything but the last three bytes
    var a: seq<byte>, b: seq<byte> := [66, 255, 255, 255, 252], [66, 66];
    assert Int32BE(a, 1) == -4;
    assert p.buffer + a == a;
    var early := Dispatch(p.(buffer := a[2..]), a[..2]);
    assert Turn(p.(buffer := a)) == early;
    assert early.buffer == [255, 255, 252];
    assert Drain(early) == early;
    assert OnData(p, a) == early;
    var whole: seq<byte> := [66, 255, 255, 255, 252, 66, 66];
    assert p.buffer + (a + b) == whole;
    assert Int32BE(whole, 1) == -4;
    var late := Dispatch(p.(buffer := whole[4..]), whole[..4]);
    assert Turn(p.(buffer := whole)) == late;
    assert late.buffer == [252, 66, 66];
    assert Drain(late) == late;
    assert OnData(p, a + b) == late;
    var resumed := early.(buffer := early.buffer + b);
    assert resumed.buffer == [255, 255, 252, 66, 66];
    assert Int32BE(resumed.buffer, 1) == -245182;
    assert CutAt(resumed.buffer, -245181) == 0;
    assert HasFrame(false, resumed.buffer) && Turn(resumed) == Dead;
    assert Drain(resumed) == Drain(Turn(resumed));
    assert OnData(early, b) == Dead;
  }

  // -- The decoder inverts the encoder -------------------------------------------------------

  function ToInt32BE(n: nat): seq<byte>
    requires n < 0x8000_0000
  {
    [(n / 256 / 256 / 256) as byte, (n / 256 / 256 % 256) as byte, (n / 256 % 256) as byte, (n % 256) as byte]
  }

  function Packet(kind: byte, body: seq<byte>): Frame
    requires |body| + 4 < 0x8000_0000
  {
    [kind] + ToInt32BE(|body| + 4) + body
  }

  datatype Message = Message(kind: byte, body: seq<byte>)

  predicate Encodable(ms: seq<Message>) {
    forall i :: 0 <= i < |ms| ==> |ms[i].body| + 4 < 0x8000_0000
  }

  function Encode(ms: seq<Message>): seq<byte>
    requires Encodable(ms)
  {
    if ms == [] then [] else Packet(ms[0].kind, ms[0].body) + Encode(ms[1..])
  }

  function Deliver(p: Peer, ms: seq<Message>): Peer
    requires Encodable(ms)
    requires p.Live? ==> !p.startup
    decreases |ms|
  {
    if p.Dead? || ms == [] then p else Deliver(Dispatch(p, Packet(ms[0].kind, ms[0].body)), ms[1..])
  }

  lemma {:induction false} LengthRoundTrips(n: nat)
    requires n < 0x8000_0000
    ensures Int32BE(ToInt32BE(n), 0) == n
  {
  }

  lemma {:induction false} Int32AtOne(b: seq<byte>)
    requires |b| >= 5
    ensures Int32BE(b, 1) == Int32BE(b[1..5], 0)
  {
  }

  lemma {:induction false} PacketIsOneFrame(kind: byte, body: seq<byte>, rest: seq<byte>)
    requires |body| + 4 < 0x8000_0000
    ensures var b := Packet(kind, body) + rest;
            && |b| >= 5 && Announced(false, b) == |Packet(kind, body)|
            && b[..|Packet(kind, body)|] == Packet(kind, body)
            && b[|Packet(kind, body)|..] == rest
  {
    var n := |body| + 4;
    var b := Packet(kind, body) + rest;
    assert b[1..5] == ToInt32BE(n);
    Int32AtOne(b);
    LengthRoundTrips(n);
  }

  lemma {:induction false} OneFrameAtATime(p: Peer, m: Message, rest: seq<byte>)
    requires p.Live? && !p.startup && p.buffer == [] && |m.body| + 4 < 0x8000_0000
    ensures OnData(p, Packet(m.kind, m.body) + rest) == OnData(Dispatch(p, Packet(m.kind, m.body)), rest)
  {
    var frame := Packet(m.kind, m.body);
    var q, next := Placed(p, frame + rest, p.written), Dispatch(p, frame);
    assert p.buffer + (frame + rest) == frame + rest;
    PacketIsOneFrame(m.kind, m.body, rest);
    DispatchIgnoresBuffer(p, frame, rest, p.written);
    assert Turn(q) == Dispatch(Placed(p, rest, p.written), frame);
    assert Drain(q) == Drain(Placed(next, rest, p.written));
    DispatchWritesNothing(p, frame);
    if next.Live? {
      assert next.buffer + rest == rest;
    }
  }

  lemma {:induction false} DispatchWritesNothing(p: Peer, frame: Frame)
    requires p.Live? && !p.startup
    ensures Dispatch(p, frame).Live? ==> Dispatch(p, frame).written == p.written
  {
  }

  /** Reading the encoding of a message list dispatches exactly those messages, in order, and
      leaves any trailing proper prefix of a further frame in the buffer. */
  lemma {:induction false} DecoderInvertsEncoder(p: Peer, ms: seq<Message>, tail: seq<byte>)
    requires p.Live? && !p.startup && p.buffer == []
    requires Encodable(ms) && !HasFrame(false, tail)
    ensures OnData(p, Encode(ms) + tail)
         == if Deliver(p, ms).Dead? then Dead else Deliver(p, ms).(buffer := tail)
    decreases |ms|
  {
    if ms == [] {
      assert Encode(ms) + tail == tail;
      assert p.buffer + tail == tail;
    } else {
      var frame, rest := Packet(ms[0].kind, ms[0].body), Encode(ms[1..]) + tail;
      assert Encode(ms) + tail == frame + rest;
      OneFrameAtATime(p, ms[0], rest);
      if Dispatch(p, frame).Live? {
        DecoderInvertsEncoder(Dispatch(p, frame), ms[1..], tail);
      }
    }
  }

  // -- Poison ----------------------------------------------------------------------------------

  datatype Event = Data(chunk: seq<byte>) | Timer(i: nat) | Close

  function Step(p: Peer, ev: Event): Peer {
    match ev
    case Data(chunk) => OnData(p, chunk)
    case Timer(i) => OnTimer(p, i)
    case Close => OnClose(p)
  }

  function Run(p: Peer, evs: seq<Event>): Peer {
    if evs == [] then p else Step(Run(p, evs[..|evs| - 1]), evs[|evs| - 1])
  }

  predicate PoisonMeansOverlap(p: Peer) {
    p.Live? ==>
      && (p.poisoned <==> p.maxOutstanding > 1)
      && (p.poisoned ==> !p.startup)
      && p.outstanding <= p.maxOutstanding && p.maxOutstanding >= 0
      && (p.startup ==> p.maxOutstanding == 0)
  }

  lemma {:induction false} DrainKeepsPoisonMeaning(p: Peer)
    requires PoisonMeansOverlap(p)
    ensures PoisonMeansOverlap(Drain(p))
    decreases Measure(p)
  {
    if p.Live? && HasFrame(p.startup, p.buffer) {
      DrainKeepsPoisonMeaning(Turn(p));
    }
  }

  /** In every run the socket is poisoned exactly when two queries were once outstanding. */
  lemma {:induction false} PoisonedIffOverlapped(evs: seq<Event>)
    ensures PoisonMeansOverlap(Run(FRESH, evs))
    ensures var q := Run(FRESH, evs);
            q.Live? ==> (q.poisoned <==> q.maxOutstanding > 1) && q.outstanding <= q.maxOutstanding
    decreases |evs|
  {
    if evs != [] {
      PoisonedIffOverlapped(evs[..|evs| - 1]);
      var p, ev := Run(FRESH, evs[..|evs| - 1]), evs[|evs| - 1];
      if p.Live? && ev.Data? {
        DrainKeepsPoisonMeaning(p.(buffer := p.buffer + ev.chunk));
      }
    }
  }

  /** When a reply timer fires: the reply is written and its query no longer outstanding, unless the
      socket is poisoned or destroyed; an ended one counts the query but takes no more bytes. */
  lemma {:induction false} TimerMeans(p: Peer, i: nat)
    requires p.Live? && i < |p.pending|
    ensures var q := Step(p, Timer(i));
            && q.Live? && q.pending == p.pending[..i] + p.pending[i + 1..]
            && q.outstanding == p.outstanding - (if p.poisoned || p.destroyed then 0 else 1)
            && q.written == p.written + (if p.poisoned || p.destroyed || p.ended then [] else [Response(p.pending[i])])
            && q.inTransaction == p.inTransaction && q.poisoned == p.poisoned && q.buffer == p.buffer
  {}

  lemma {:induction false} TurnKeepsPoison(p: Peer)
    requires p.Live? && p.poisoned && !p.startup && HasFrame(p.startup, p.buffer)
    ensures var q := Turn(p); q.Dead? || (q.poisoned && !q.startup && q.written == p.written)
  {
  }

  lemma {:induction false} DrainKeepsPoison(p: Peer)
    requires p.Live? && p.poisoned && !p.startup
    ensures var q := Drain(p); q.Dead? || (q.poisoned && !q.startup && q.written == p.written)
    decreases Measure(p)
  {
    if HasFrame(p.startup, p.buffer) {
      TurnKeepsPoison(p);
      if Turn(p).Live? {
        DrainKeepsPoison(Turn(p));
      }
    }
  }

  /** Once poisoned, always poisoned, and nothing more is ever written. */
  lemma {:induction false} PoisonIsForever(p: Peer, evs: seq<Event>)
    requires p.Live? && p.poisoned && !p.startup
    ensures var q := Run(p, evs); q.Dead? || (q.poisoned && !q.startup && q.written == p.written)
    decreases |evs|
  {
    if evs != [] {
      PoisonIsForever(p, evs[..|evs| - 1]);
      var q, ev := Run(p, evs[..|evs| - 1]), evs[|evs| - 1];
      if q.Live? && ev.Data? {
        DrainKeepsPoison(q.(buffer := q.buffer + ev.chunk));
      }
    }
  }

  lemma {:induction false} DrainKeepsSilence(p: Peer)
    requires p.Live? && (p.ended || p.destroyed)
    ensures var q := Drain(p); q.Dead? || ((q.ended || q.destroyed) && q.written == p.written)
    decreases Measure(p)
  {
    if HasFrame(p.startup, p.buffer) {
      TurnKeepsSilence(p);
      if Turn(p).Live? {
        DrainKeepsSilence(Turn(p));
      }
    }
  }

  lemma {:induction false} TurnKeepsSilence(p: Peer)
    requires p.Live? && (p.ended || p.destroyed) && HasFrame(p.startup, p.buffer)
    ensures var q := Turn(p); q.Dead? || ((q.ended || q.destroyed) && q.written == p.written)
  {}

  /** After a Terminate or a close nothing is ever written, not even a reply that was owed. */
  lemma {:induction false} ClosedIsSilent(p: Peer, evs: seq<Event>)
    requires p.Live? && (p.ended || p.destroyed)
    ensures Step(p, Close).Live? && Step(p, Close).destroyed
    ensures var q := Run(p, evs); q.Dead? || ((q.ended || q.destroyed) && q.written == p.written)
    decreases |evs|
  {
    if evs != [] {
      ClosedIsSilent(p, evs[..|evs| - 1]);
      var q, ev := Run(p, evs[..|evs| - 1]), evs[|evs| - 1];
      if q.Live? && ev.Data? {
        DrainKeepsSilence(q.(buffer := q.buffer + ev.chunk));
      }
    }
  }

  // -- A client that waits for ReadyForQuery ------------------------------------------------------

  /** What a client sees at message grain: its own frames and the answers that arrive. */
  datatype Exchange = Out(frame: Frame) | In

  datatype Phase = Idle | Open | Awaiting | Broken

  /** A query is P (D | B | E)* S, or one Q; the next one starts only after the answer. */
  function NextPhase(phase: Phase, x: Exchange): Phase {
    match x
    case In => if phase.Awaiting? then Idle else Broken
    case Out(f) =>
      match KindOf(f)
      case Parse => if phase.Idle? then Open else Broken
      case Simple => if phase.Idle? then Awaiting else Broken
      case Sync => if phase.Open? then Awaiting else Broken
      case Describe => if phase.Open? then Open else Broken
      case Bind => if phase.Open? then Open else Broken
      case Execute => if phase.Open? then Open else Broken
      case _ => Broken
  }

  function PhaseAfter(xs: seq<Exchange>): Phase {
    if xs == [] then Idle else NextPhase(PhaseAfter(xs[..|xs| - 1]), xs[|xs| - 1])
  }

  predicate InsideQuery(f: Frame) {
    f != [] && (f[0] == 68 || f[0] == 66 || f[0] == 69)
  }

  function Outs(fs: seq<Frame>): seq<Exchange> {
    if fs == [] then [] else Outs(fs[..|fs| - 1]) + [Out(fs[|fs| - 1])]
  }

  lemma {:induction false} QueryStaysOpen(xs: seq<Exchange>, fs: seq<Frame>)
    requires PhaseAfter(xs) == Open && forall i :: 0 <= i < |fs| ==> InsideQuery(fs[i])
    ensures PhaseAfter(xs + Outs(fs)) == Open
    decreases |fs|
  {
    if fs == [] {
      assert xs + Outs(fs) == xs;
    } else {
      var front, last := fs[..|fs| - 1], fs[|fs| - 1];
      QueryStaysOpen(xs, front);
      PhaseOneMore(xs + Outs(front), Out(last));
      assert xs + Outs(front) + [Out(last)] == xs + (Outs(front) + [Out(last)]);
    }
  }

  /** What a client has sent and received once it has also sent P, these and S. */
  function Asked(xs: seq<Exchange>, parse: Frame, fs: seq<Frame>, sync: Frame): seq<Exchange> {
    xs + [Out(parse)] + Outs(fs) + [Out(sync)]
  }

  lemma {:induction false} AskedIsAwaiting(xs: seq<Exchange>, parse: Frame, fs: seq<Frame>, sync: Frame)
    requires PhaseAfter(xs) == Idle && parse != [] && parse[0] == 80 && sync != [] && sync[0] == 83
    requires forall i :: 0 <= i < |fs| ==> InsideQuery(fs[i])
    ensures PhaseAfter(Asked(xs, parse, fs, sync)) == Awaiting
  {
    PhaseOneMore(xs, Out(parse));
    QueryStaysOpen(xs + [Out(parse)], fs);
    PhaseOneMore(xs + [Out(parse)] + Outs(fs), Out(sync));
  }

  /** What a waiting client may do: P, any of D, B and E, and S, or one Q; then it has to have the answer
      before it goes on. */
  lemma {:induction false} WaitingClientMay(xs: seq<Exchange>, parse: Frame, fs: seq<Frame>, sync: Frame, query: Frame)
    requires PhaseAfter(xs) == Idle && parse != [] && parse[0] == 80 && sync != [] && sync[0] == 83
    requires query != [] && query[0] == 81 && forall i :: 0 <= i < |fs| ==> InsideQuery(fs[i])
    ensures var asked := Asked(xs, parse, fs, sync);
            && PhaseAfter(asked) == Awaiting && PhaseAfter(asked + [In]) == Idle
            && PhaseAfter(asked + [Out(parse)]) == Broken && PhaseAfter(asked + [Out(query)]) == Broken
    ensures PhaseAfter(xs + [Out(query)]) == Awaiting && PhaseAfter(xs + [Out(query)] + [In]) == Idle
  {
    AskedIsAwaiting(xs, parse, fs, sync);
    OnlyTheAnswerFollows(Asked(xs, parse, fs, sync), parse, query);
    PhaseOneMore(xs, Out(query));
    OnlyTheAnswerFollows(xs + [Out(query)], parse, query);
  }

  lemma {:induction false} OnlyTheAnswerFollows(asked: seq<Exchange>, parse: Frame, query: Frame)
    requires PhaseAfter(asked) == Awaiting && parse != [] && parse[0] == 80 && query != [] && query[0] == 81
    ensures PhaseAfter(asked + [In]) == Idle
    ensures PhaseAfter(asked + [Out(parse)]) == Broken && PhaseAfter(asked + [Out(query)]) == Broken
  {
    PhaseOneMore(asked, In);
    PhaseOneMore(asked, Out(parse));
    PhaseOneMore(asked, Out(query));
  }

  lemma {:induction false} PhaseOneMore(xs: seq<Exchange>, x: Exchange)
    ensures PhaseAfter(xs + [x]) == NextPhase(PhaseAfter(xs), x)
  {
    assert (xs + [x])[..|xs|] == xs;
  }

  type Query = seq<Frame>

  datatype History = History(sent: seq<Query>, open: Query)

  function Extend(h: History, f: Frame): History {
    if KindOf(f).Sync? || KindOf(f).Simple? then History(h.sent + [h.open + [f]], [])
    else History(h.sent, h.open + [f])
  }

  function HistoryOf(xs: seq<Exchange>): History {
    if xs == [] then History([], [])
    else
      var h := HistoryOf(xs[..|xs| - 1]);
      match xs[|xs| - 1]
      case In => h
      case Out(f) =>
        Extend(h, f)
  }

  function Replay(p: Peer, xs: seq<Exchange>): Peer
    requires p.Live? ==> !p.startup
    ensures Replay(p, xs).Live? ==> !Replay(p, xs).startup
  {
    if xs == [] then p
    else
      var q := Replay(p, xs[..|xs| - 1]);
      match xs[|xs| - 1]
      case In => OnTimer(q, 0)
      case Out(f) => if q.Dead? then Dead else Dispatch(q, f)
  }

  function QueryCommand(q: Query): Command {
    if q == [] then Select else CommandOf(q[0])
  }

  function RepliesOf(q: Query, command: Command): seq<Reply> {
    if q == [] then [] else RepliesOf(q[..|q| - 1], command) + RepliesTo(q[|q| - 1], command)
  }

  function TransactionOf(queries: seq<Query>): bool {
    if queries == [] then false
    else TransactionAfter(TransactionOf(queries[..|queries| - 1]), QueryCommand(queries[|queries| - 1]))
  }

  /** The answers a correct server owes: one per query, in order, each with the status byte
      of the transaction state after it. */
  function Answers(queries: seq<Query>): (ws: seq<Write>)
    ensures |ws| == |queries|
  {
    if queries == [] then []
    else
      var q := queries[|queries| - 1];
      Answers(queries[..|queries| - 1])
        + [Response(Answer(RepliesOf(q, QueryCommand(q)), TransactionOf(queries)))]
  }

  ghost predicate Serving(p: Peer, phase: Phase, h: History) {
    && p.Live? && !p.poisoned && !p.ended && !p.destroyed
    && 0 <= p.maxOutstanding <= 1
    && p.outstanding == (if phase.Idle? then 0 else 1)
    && p.inTransaction == TransactionOf(h.sent)
    && (phase.Open? <==> h.open != [])
    && (phase.Open? ==> p.command == QueryCommand(h.open) && p.replies == RepliesOf(h.open, p.command))
    && (!phase.Open? ==> p.replies == [])
    && (if phase.Awaiting?
        then |h.sent| > 0 && p.pending == [Answers(h.sent)[|h.sent| - 1].answer]
             && p.written == Answers(h.sent)[..|h.sent| - 1]
        else p.pending == [] && p.written == Answers(h.sent))
  }

  /** A client that never starts a query before the previous ReadyForQuery is never poisoned: at
      most one query is outstanding and every query gets its own answer, once and in order. */
  lemma {:induction false} WaitingClientIsServed(xs: seq<Exchange>)
    requires PhaseAfter(xs) != Broken
    ensures Serving(Replay(READY, xs), PhaseAfter(xs), HistoryOf(xs))
    decreases |xs|
  {
    if xs != [] {
      var before, x := xs[..|xs| - 1], xs[|xs| - 1];
      WaitingClientIsServed(before);
      var h, p := HistoryOf(before), Replay(READY, before);
      match x
      case In => ServeAnswer(p, h);
      case Out(f) => ServeFrame(p, PhaseAfter(before), h, f);
    }
  }

  lemma {:induction false} ServeAnswer(p: Peer, h: History)
    requires Serving(p, Awaiting, h) && !p.startup
    ensures Serving(OnTimer(p, 0), Idle, h)
  {
    var owed := Answers(h.sent);
    assert p.pending[..0] + p.pending[1..] == [];
    assert owed == owed[..|owed| - 1] + [owed[|owed| - 1]];
  }

  lemma {:induction false} RepliesGrow(open: Query, f: Frame)
    ensures var q := open + [f];
            && QueryCommand(q) == (if open == [] then CommandOf(f) else QueryCommand(open))
            && RepliesOf(q, QueryCommand(q)) == RepliesOf(open, QueryCommand(q)) + RepliesTo(f, QueryCommand(q))
  {
    var q := open + [f];
    assert q[..|q| - 1] == open && q[|q| - 1] == f;
  }

  lemma {:induction false} AnswersGrow(sent: seq<Query>, q: Query)
    ensures var owed := Response(Answer(RepliesOf(q, QueryCommand(q)), TransactionOf(sent + [q])));
            && Answers(sent + [q]) == Answers(sent) + [owed]
            && TransactionOf(sent + [q]) == TransactionAfter(TransactionOf(sent), QueryCommand(q))
  {
    var all := sent + [q];
    assert all[..|all| - 1] == sent && all[|all| - 1] == q;
  }

  lemma {:induction false} ServeFrame(p: Peer, phase: Phase, h: History, f: Frame)
    requires Serving(p, phase, h) && !p.startup && NextPhase(phase, Out(f)) != Broken
    ensures Serving(Dispatch(p, f), NextPhase(phase, Out(f)), Extend(h, f))
  {
    RepliesGrow(h.open, f);
    if KindOf(f).Sync? || KindOf(f).Simple? {
      ServeLastFrame(p, phase, h, f);
    }
  }

  lemma {:induction false} ServeLastFrame(p: Peer, phase: Phase, h: History, f: Frame)
    requires Serving(p, phase, h) && !p.startup && NextPhase(phase, Out(f)) == Awaiting
    ensures Serving(Dispatch(p, f), Awaiting, Extend(h, f))
  {
    var q := h.open + [f];
    RepliesGrow(h.open, f);
    AnswersGrow(h.sent, q);
    assert Answers(h.sent + [q])[..|h.sent|] == Answers(h.sent);
    assert RepliesOf([], CommandOf(f)) == [];
    assert p.replies + RepliesTo(f, QueryCommand(q)) == RepliesOf(q, QueryCommand(q));
    assert p.replies + [] == p.replies;
    var r := Dispatch(p, f);
    assert r.command == QueryCommand(q);
    assert r.inTransaction == TransactionOf(h.sent + [q]);
    assert r.pending == [Answer(RepliesOf(q, QueryCommand(q)), r.inTransaction)];
  }

  /** Query i is a BEGIN that no later query has closed. */
  predicate OpenedAt(queries: seq<Query>, i: int) {
    && 0 <= i < |queries| && QueryCommand(queries[i]).Begin?
    && forall j :: i < j < |queries| ==> !Closes(QueryCommand(queries[j]))
  }

  predicate Closes(command: Command) {
    command.Commit? || command.Rollback?
  }

  /** The status byte is T exactly inside BEGIN ... COMMIT or ROLLBACK. */
  lemma {:induction false} TransactionMeans(queries: seq<Query>)
    ensures TransactionOf(queries) <==> exists i :: OpenedAt(queries, i)
    decreases |queries|
  {
    if queries != [] {
      var n := |queries| - 1;
      var front := queries[..n];
      TransactionMeans(front);
      var last := QueryCommand(queries[n]);
      assert forall j :: 0 <= j < n ==> front[j] == queries[j];
      if last.Begin? {
        assert OpenedAt(queries, n);
      } else if Closes(last) {
        assert forall i :: OpenedAt(queries, i) ==> i < n;
      } else {
        assert forall i :: OpenedAt(queries, i) <==> OpenedAt(front, i);
      }
    }
  }

  // -- The socket object ------------------------------------------------------------------------------

  class Socket {
    var buffer: seq<byte>
    var startup: bool
    var outstanding: int
    var maxOutstanding: int
    var poisoned: bool
    var inTransaction: bool
    var command: Command
    var replies: seq<Reply>
    var pending: seq<Answer>
    var written: seq<Write>
    var ended: bool
    var destroyed: bool
    var dead: bool

    function State(): Peer
      reads this
    {
      if dead then Dead
      else Live(buffer, startup, outstanding, maxOutstanding, poisoned, inTransaction, command,
                replies, pending, written, ended, destroyed)
    }

    constructor ()
      ensures State() == FRESH
    {
      buffer, startup, outstanding, maxOutstanding, poisoned := [], true, 0, 0, false;
      inTransaction, command, replies, pending, written := false, Select, [], [], [];
      ended, destroyed, dead := false, false, false;
    }

    method StartQuery()
      requires !dead
      modifies this
      ensures State() == Started(old(State()))
    {
      outstanding := outstanding + 1;
      if outstanding > maxOutstanding { maxOutstanding := outstanding; }
      if outstanding > 1 { poisoned := true; }
    }

    method FinishQuery()
      requires !dead
      modifies this
      ensures State() == Finished(old(State()))
    {
      if command.Begin? { inTransaction := true; }
      if command.Commit? || command.Rollback? { inTransaction := false; }
      pending := pending + [Answer(replies, inTransaction)];
      replies := [];
    }

    method Write(w: Write)
      requires !dead
      modifies this
      ensures State() == Send(old(State()), w)
    {
      if !ended && !destroyed { written := written + [w]; }
    }

    method Receive(frame: Frame)
      requires !dead && !startup
      modifies this
      ensures State() == Dispatch(old(State()), frame)
    {
      match KindOf(frame)
      case Parse =>
        StartQuery();
        command := CommandOf(frame);
        replies := replies + RepliesTo(frame, command);
      case Describe => replies := replies + RepliesTo(frame, command);
      case Bind => replies := replies + RepliesTo(frame, command);
      case Execute => replies := replies + RepliesTo(frame, command);
      case Sync => FinishQuery();
      case Simple =>
        StartQuery();
        command := CommandOf(frame);
        replies := replies + RepliesTo(frame, command);
        FinishQuery();
      case Terminate => ended := true;
      case Unexpected => dead := true;
    }

    /** The data handler: append the chunk, then take frames while the buffer holds one. */
    method Data(chunk: seq<byte>)
      modifies this
      ensures State() == OnData(old(State()), chunk)
    {
      if dead { return; }
      buffer := buffer + chunk;
      ghost var start := State();
      while !dead && |buffer| >= HeaderSize(startup)
        invariant Drain(State()) == Drain(start)
        decreases Measure(State())
      {
        var length := Announced(startup, buffer);
        if |buffer| < length { return; }
        var k := CutAt(buffer, length);
        var frame := buffer[..k];
        ghost var before := State();
        buffer := buffer[k..];
        if startup {
          startup := false;
          Write(Greeting);
        } else {
          Receive(frame);
        }
        assert State() == Turn(before);
      }
    }

    /** A reply timer: poisoned and destroyed sockets drop the reply. */
    method Fire(i: nat)
      requires i < |pending|
      modifies this
      ensures State() == OnTimer(old(State()), i)
    {
      var response := pending[i];
      if dead { return; }
      pending := pending[..i] + pending[i + 1..];
      if poisoned || destroyed { return; }
      outstanding := outstanding - 1;
      Write(Response(response));
    }
  }
}
