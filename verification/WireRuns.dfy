/** A client and the peer over a byte stream: the client sends messages, the network delivers the
    bytes in pieces of any size, timers fire when they like. */
module WireRuns {
  import opened WirePeer

  /** A connection: the peer, the bytes under way to it, and what the client has seen so far. */
  datatype Link = Link(peer: Peer, wire: seq<byte>, seen: seq<Exchange>)

  /** The client sends a message, the next n bytes arrive as one data event, or a reply timer fires. */
  datatype Happening = Sends(m: Message) | Arrives(n: nat) | Fires(i: nat)

  predicate Sendable(m: Message) {
    |m.body| + 4 < 0x8000_0000
  }

  function FrameOf(m: Message): Frame
    requires Sendable(m)
  {
    Packet(m.kind, m.body)
  }

  /** What cannot happen changes nothing. */
  function Happen(link: Link, what: Happening): Link {
    match what
    case Sends(m) =>
      if !Sendable(m) then link
      else link.(wire := link.wire + FrameOf(m), seen := link.seen + [Out(FrameOf(m))])
    case Arrives(n) =>
      if n > |link.wire| then link
      else link.(peer := OnData(link.peer, link.wire[..n]), wire := link.wire[n..])
    case Fires(i) =>
      if link.peer.Dead? || i >= |link.peer.pending| then link
      else link.(peer := OnTimer(link.peer, i), seen := link.seen + [In])
  }

  function HappenAll(link: Link, all: seq<Happening>): Link {
    if all == [] then link else Happen(HappenAll(link, all[..|all| - 1]), all[|all| - 1])
  }

  /** The client starts no query before it has the answer to the one before. Nothing is asked of the
      network or of the timers. */
  predicate Patient(link: Link, all: seq<Happening>) {
    all == [] ||
    var before, what := HappenAll(link, all[..|all| - 1]), all[|all| - 1];
    && Patient(link, all[..|all| - 1])
    && (what.Sends? && Sendable(what.m) ==> NextPhase(PhaseAfter(before.seen), Out(FrameOf(what.m))) != Broken)
  }

  predicate IsStartup(packet: seq<byte>) {
    |packet| >= 4 && Announced(true, packet) == |packet|
  }

  /** A new connection, its startup packet under way. */
  function Opened(packet: seq<byte>): Link {
    Link(FRESH, packet, [])
  }

  // -- What every happening keeps ---------------------------------------------------------------

  function Outs(ms: seq<Message>): (r: seq<Exchange>)
    requires Encodable(ms)
    ensures |r| == |ms| && forall i :: 0 <= i < |ms| ==> r[i] == Out(FrameOf(ms[i]))
  {
    seq(|ms|, i requires 0 <= i < |ms| => Out(FrameOf(ms[i])))
  }

  /** The peer p after a greeting, with b in its buffer. */
  function Over(p: Peer, b: seq<byte>): Peer {
    if p.Dead? then Dead else Placed(p, b, [Greeting] + p.written)
  }

  lemma {:induction false} OverIsLive(p: Peer, b: seq<byte>, more: seq<byte>)
    requires p.Live?
    ensures Over(p, b).Live? && Over(p, b).buffer == b && Over(p, b).startup == p.startup
    ensures OnData(Over(p, b), more) == Drain(Over(p, b + more))
  {}

  /** The peer whom the exchanges `done` have reached, with b in its buffer. */
  function Reached(startup: bool, done: seq<Exchange>, b: seq<byte>): Peer {
    if startup then FRESH.(buffer := b) else Over(Replay(READY, done), b)
  }

  ghost predicate PeerInStep(p: Peer, done: seq<Exchange>) {
    && p.Live? && !HasFrame(p.startup, p.buffer)
    && p == Reached(p.startup, done, p.buffer)
    && (p.startup ==> done == [])
  }

  /** The bytes that the peer has not used yet: the startup packet if it has not been read, and the
      messages in the queue. */
  predicate BytesInStep(p: Peer, wire: seq<byte>, packet: seq<byte>, queue: seq<Message>)
    requires p.Live? && Encodable(queue)
  {
    p.buffer + wire == (if p.startup then packet else []) + Encode(queue)
  }

  predicate SeenInStep(seen: seq<Exchange>, done: seq<Exchange>, queue: seq<Message>) {
    PhaseAfter(seen) != Broken && Encodable(queue) && seen == done + Outs(queue)
  }

  /** The exchanges `done` have reached the peer; the messages `queue` are in its buffer or under way,
      behind the startup packet if that has not been read yet. */
  ghost predicate InStep(link: Link, packet: seq<byte>, done: seq<Exchange>, queue: seq<Message>) {
    && SeenInStep(link.seen, done, queue)
    && PeerInStep(link.peer, done)
    && BytesInStep(link.peer, link.wire, packet, queue)
  }

  lemma {:induction false} FrontIsPatient(xs: seq<Exchange>, ys: seq<Exchange>)
    requires PhaseAfter(xs + ys) != Broken
    ensures PhaseAfter(xs) != Broken
    decreases |ys|
  {
    if ys == [] {
      assert xs + ys == xs;
    } else {
      assert (xs + ys)[..|xs + ys| - 1] == xs + ys[..|ys| - 1];
      FrontIsPatient(xs, ys[..|ys| - 1]);
    }
  }

  lemma {:induction false} EncodeOneMore(ms: seq<Message>, m: Message)
    requires Encodable(ms) && Sendable(m)
    ensures Encode(ms + [m]) == Encode(ms) + FrameOf(m)
    decreases |ms|
  {
    if ms == [] {
      assert [m][1..] == [] && ms + [m] == [m];
    } else {
      assert (ms + [m])[1..] == ms[1..] + [m];
      EncodeOneMore(ms[1..], m);
    }
  }

  lemma {:induction false} DispatchOver(p: Peer, frame: Frame)
    requires p.Live? && !p.startup
    ensures Dispatch(Over(p, []), frame) == Over(Dispatch(p, frame), [])
  {
    DispatchIgnoresBuffer(p, frame, [], [Greeting] + p.written);
    DispatchWritesNothing(p, frame);
  }

  lemma {:induction false} ReplayIsLive(xs: seq<Exchange>)
    requires PhaseAfter(xs) != Broken
    ensures Replay(READY, xs).Live? && !Replay(READY, xs).startup
  {
    WaitingClientIsServed(xs);
  }

  lemma {:induction false} ReplayOneMore(done: seq<Exchange>, f: Frame)
    requires Replay(READY, done).Live?
    ensures Replay(READY, done + [Out(f)]) == Dispatch(Replay(READY, done), f)
  {
    assert (done + [Out(f)])[..|done|] == done;
  }

  lemma {:induction false} OutsSplit(done: seq<Exchange>, ms: seq<Message>)
    requires ms != [] && Encodable(ms)
    ensures done + Outs(ms) == (done + [Out(FrameOf(ms[0]))]) + Outs(ms[1..])
  {}

  lemma {:induction false} DeliverFirst(done: seq<Exchange>, m: Message, rest: seq<Exchange>)
    requires Sendable(m) && PhaseAfter((done + [Out(FrameOf(m))]) + rest) != Broken
    ensures var p := Replay(READY, done);
            && p.Live?
            && Dispatch(Over(p, []), FrameOf(m)) == Over(Replay(READY, done + [Out(FrameOf(m))]), [])
  {
    FrontIsPatient(done + [Out(FrameOf(m))], rest);
    FrontIsPatient(done, [Out(FrameOf(m))]);
    ReplayIsLive(done);
    ReplayOneMore(done, FrameOf(m));
    DispatchOver(Replay(READY, done), FrameOf(m));
  }

  /** Delivering messages is replaying the exchanges they stand for. */
  lemma {:induction false} DeliverIsReplay(done: seq<Exchange>, ms: seq<Message>)
    requires Encodable(ms) && PhaseAfter(done + Outs(ms)) != Broken
    ensures Deliver(Over(Replay(READY, done), []), ms) == Over(Replay(READY, done + Outs(ms)), [])
    decreases |ms|
  {
    if ms == [] {
      assert done + Outs(ms) == done;
    } else {
      OutsSplit(done, ms);
      DeliverFirst(done, ms[0], Outs(ms[1..]));
      DeliverIsReplay(done + [Out(FrameOf(ms[0]))], ms[1..]);
    }
  }

  /** Bytes that do not fill the first frame hold none, others begin with it. */
  lemma {:induction false} FirstFrame(m: Message, after: seq<byte>, bytes: seq<byte>, rest: seq<byte>)
    requires Sendable(m) && bytes + rest == FrameOf(m) + after
    ensures |bytes| < |FrameOf(m)| ==> !HasFrame(false, bytes)
    ensures |bytes| >= |FrameOf(m)| ==>
              && bytes == FrameOf(m) + bytes[|FrameOf(m)|..]
              && bytes[|FrameOf(m)|..] + rest == after
  {
    var frame := FrameOf(m);
    PacketIsOneFrame(m.kind, m.body, after);
    if |bytes| < |frame| {
      if |bytes| >= 5 {
        HeaderIsStable(false, bytes, rest);
      }
    } else {
      assert bytes[..|frame|] == (bytes + rest)[..|frame|] == frame;
      assert bytes[|frame|..] + rest == (bytes + rest)[|frame|..] == after;
    }
  }

  lemma {:induction false} SplitFurther(queue: seq<Message>, k: nat, bytes: seq<byte>, tail: seq<byte>)
    requires Encodable(queue) && k < |queue|
    requires |bytes| >= |FrameOf(queue[0])| && bytes == FrameOf(queue[0]) + bytes[|FrameOf(queue[0])|..]
    requires bytes[|FrameOf(queue[0])|..] == Encode(queue[1..][..k]) + tail
    ensures bytes == Encode(queue[..k + 1]) + tail
    ensures queue[1..][k..] == queue[k + 1..]
  {
    assert queue[..k + 1][1..] == queue[1..][..k];
    var a, b := FrameOf(queue[0]), Encode(queue[1..][..k]);
    assert a + (b + tail) == (a + b) + tail;
  }

  /** A prefix of an encoding is whole messages and the beginning of one more. */
  lemma {:induction false} SplitStream(queue: seq<Message>, bytes: seq<byte>, rest: seq<byte>)
    returns (k: nat, tail: seq<byte>)
    requires Encodable(queue) && bytes + rest == Encode(queue)
    ensures k <= |queue| && bytes == Encode(queue[..k]) + tail
    ensures tail + rest == Encode(queue[k..]) && !HasFrame(false, tail)
    decreases |queue|
  {
    var n := if queue == [] then 0 else |FrameOf(queue[0])|;
    if queue != [] {
      FirstFrame(queue[0], Encode(queue[1..]), bytes, rest);
    }
    if queue == [] || |bytes| < n {
      k, tail := 0, bytes;
      assert queue[0..] == queue && Encode(queue[..0]) + bytes == bytes;
    } else {
      k, tail := SplitStream(queue[1..], bytes[n..], rest);
      SplitFurther(queue, k, bytes, tail);
      k := k + 1;
    }
  }

  lemma {:induction false} SplitSeen(seen: seq<Exchange>, done: seq<Exchange>, queue: seq<Message>, k: nat)
    requires SeenInStep(seen, done, queue) && k <= |queue|
    ensures Encodable(queue[..k]) && SeenInStep(seen, done + Outs(queue[..k]), queue[k..])
    ensures PhaseAfter(done + Outs(queue[..k])) != Broken
  {
    assert done + Outs(queue) == (done + Outs(queue[..k])) + Outs(queue[k..]);
    FrontIsPatient(done + Outs(queue[..k]), Outs(queue[k..]));
  }

  /** The decoder loop on whatever part of the queued messages has arrived. */
  lemma {:induction false} DecodeArrived(
    seen: seq<Exchange>, done: seq<Exchange>, queue: seq<Message>, bytes: seq<byte>, rest: seq<byte>)
    returns (done': seq<Exchange>, queue': seq<Message>, tail: seq<byte>)
    requires SeenInStep(seen, done, queue) && bytes + rest == Encode(queue)
    ensures SeenInStep(seen, done', queue') && tail + rest == Encode(queue') && !HasFrame(false, tail)
    ensures Drain(Reached(false, done, bytes)) == Reached(false, done', tail)
    ensures Reached(false, done', tail).Live? && Reached(false, done', tail).buffer == tail
    ensures !Reached(false, done', tail).startup
  {
    var k;
    k, tail := SplitStream(queue, bytes, rest);
    done', queue' := done + Outs(queue[..k]), queue[k..];
    SplitSeen(seen, done, queue, k);
    FrontIsPatient(done, Outs(queue));
    ReplayIsLive(done);
    ReplayIsLive(done');
    DeliverIsReplay(done, queue[..k]);
    var p, q := Replay(READY, done), Replay(READY, done');
    OverIsLive(p, [], bytes);
    OverIsLive(q, [], []);
    OverIsLive(q, tail, []);
    DecoderInvertsEncoder(Over(p, []), queue[..k], tail);
    assert [] + bytes == bytes;
  }

  lemma {:induction false} SendsInStep(link: Link, packet: seq<byte>, done: seq<Exchange>, queue: seq<Message>, m: Message)
    requires InStep(link, packet, done, queue) && Sendable(m)
    requires NextPhase(PhaseAfter(link.seen), Out(FrameOf(m))) != Broken
    ensures InStep(Happen(link, Sends(m)), packet, done, queue + [m])
  {
    SendIsSeen(link.seen, done, queue, m);
    EncodeOneMore(queue, m);
    var head := if link.peer.startup then packet else [];
    MoreOnWire(link.peer.buffer, link.wire, head, Encode(queue), FrameOf(m));
  }

  lemma {:induction false} MoreOnWire(b: seq<byte>, wire: seq<byte>, head: seq<byte>, tail: seq<byte>, more: seq<byte>)
    requires b + wire == head + tail
    ensures b + (wire + more) == head + (tail + more)
  {
    assert b + (wire + more) == (b + wire) + more;
    assert head + (tail + more) == (head + tail) + more;
  }

  lemma {:induction false} OutsOneMore(done: seq<Exchange>, queue: seq<Message>, m: Message)
    requires Encodable(queue) && Sendable(m)
    ensures done + Outs(queue + [m]) == (done + Outs(queue)) + [Out(FrameOf(m))]
  {
    assert Outs(queue + [m]) == Outs(queue) + [Out(FrameOf(m))];
  }

  lemma {:induction false} SendIsSeen(seen: seq<Exchange>, done: seq<Exchange>, queue: seq<Message>, m: Message)
    requires SeenInStep(seen, done, queue) && Sendable(m) && NextPhase(PhaseAfter(seen), Out(FrameOf(m))) != Broken
    ensures SeenInStep(seen + [Out(FrameOf(m))], done, queue + [m])
  {
    OutsOneMore(done, queue, m);
    PhaseOneMore(seen, Out(FrameOf(m)));
  }

  /** More bytes reach the peer, `rest` being still under way. */
  lemma {:induction false} PeerDecodes(
    p: Peer, more: seq<byte>, rest: seq<byte>, seen: seq<Exchange>, done: seq<Exchange>, queue: seq<Message>)
    returns (done': seq<Exchange>, queue': seq<Message>)
    requires SeenInStep(seen, done, queue) && PeerInStep(p, done) && !p.startup
    requires (p.buffer + more) + rest == Encode(queue)
    ensures SeenInStep(seen, done', queue') && PeerInStep(OnData(p, more), done') && !OnData(p, more).startup
    ensures BytesInStep(OnData(p, more), rest, [], queue')
  {
    var tail;
    done', queue', tail := DecodeArrived(seen, done, queue, p.buffer + more, rest);
    FrontIsPatient(done, Outs(queue));
    ReplayIsLive(done);
    OverIsLive(Replay(READY, done), p.buffer, more);
    assert OnData(p, more) == Reached(false, done', tail);
  }

  lemma {:induction false} Regroup(b: seq<byte>, wire: seq<byte>, n: nat)
    requires n <= |wire|
    ensures (b + wire[..n]) + wire[n..] == b + wire
  {}

  /** Bytes arrive after the startup packet. */
  lemma {:induction false} ArrivesInStep(link: Link, packet: seq<byte>, done: seq<Exchange>, queue: seq<Message>, n: nat)
    returns (done': seq<Exchange>, queue': seq<Message>)
    requires InStep(link, packet, done, queue) && !link.peer.startup && n <= |link.wire|
    ensures InStep(Happen(link, Arrives(n)), packet, done', queue')
  {
    Regroup(link.peer.buffer, link.wire, n);
    assert [] + Encode(queue) == Encode(queue);
    done', queue' := PeerDecodes(link.peer, link.wire[..n], link.wire[n..], link.seen, done, queue);
  }

  /** Bytes arrive before the startup packet is complete, and may complete it. */
  lemma {:induction false} OpensInStep(link: Link, packet: seq<byte>, queue: seq<Message>, n: nat)
    returns (done': seq<Exchange>, queue': seq<Message>)
    requires InStep(link, packet, [], queue) && link.peer.startup && n <= |link.wire| && IsStartup(packet)
    ensures InStep(Happen(link, Arrives(n)), packet, done', queue')
  {
    var more, rest := link.wire[..n], link.wire[n..];
    var bytes := link.peer.buffer + more;
    Regroup(link.peer.buffer, link.wire, n);
    assert OnData(link.peer, more) == Drain(FRESH.(buffer := bytes));
    StartupArrives(packet, Encode(queue), bytes, rest);
    if |bytes| < |packet| {
      done', queue' := [], queue;
    } else {
      var tail;
      done', queue', tail := DecodeArrived(link.seen, [], queue, bytes[|packet|..], rest);
      assert OnData(link.peer, more) == Reached(false, done', tail);
    }
  }

  lemma {:induction false} StartupArrives(packet: seq<byte>, after: seq<byte>, bytes: seq<byte>, rest: seq<byte>)
    requires IsStartup(packet) && bytes + rest == packet + after
    ensures |bytes| < |packet| ==>
              !HasFrame(true, bytes) && Drain(FRESH.(buffer := bytes)) == Reached(true, [], bytes)
    ensures |bytes| >= |packet| ==>
              && bytes[|packet|..] + rest == after
              && Drain(FRESH.(buffer := bytes)) == Drain(Reached(false, [], bytes[|packet|..]))
  {
    HeaderIsStable(true, packet, after);
    if |bytes| >= 4 {
      HeaderIsStable(true, bytes, rest);
    }
    if |bytes| >= |packet| {
      assert bytes[|packet|..] + rest == (bytes + rest)[|packet|..] == after;
      assert Turn(FRESH.(buffer := bytes)) == Over(READY, bytes[|packet|..]);
    }
  }

  lemma {:induction false} PeerFires(p: Peer, done: seq<Exchange>, i: nat)
    requires PhaseAfter(done) != Broken && PeerInStep(p, done) && i < |p.pending|
    ensures PhaseAfter(done).Awaiting? && !p.startup
    ensures var q := OnTimer(p, i); PeerInStep(q, done + [In]) && q.buffer == p.buffer && !q.startup
  {
    WaitingClientIsServed(done);
    assert PhaseAfter(done).Awaiting? && !p.startup && i == 0;
    AnswerIsSeen(done);
    TimerOver(Replay(READY, done), p.buffer);
  }

  lemma {:induction false} FiresInStep(link: Link, packet: seq<byte>, done: seq<Exchange>, queue: seq<Message>, i: nat)
    requires InStep(link, packet, done, queue) && i < |link.peer.pending|
    ensures queue == [] && InStep(Happen(link, Fires(i)), packet, done + [In], [])
  {
    FrontIsPatient(done, Outs(queue));
    PeerFires(link.peer, done, i);
    QueueIsEmpty(link.seen, done, queue);
    AnswerIsSeen(done);
  }

  lemma {:induction false} NothingIsSentBefore(done: seq<Exchange>, queue: seq<Message>)
    requires PhaseAfter(done).Awaiting? && queue != [] && Encodable(queue)
    ensures PhaseAfter(done + Outs(queue[..1])) == Broken
  {
    var next := done + Outs(queue[..1]);
    assert next[..|next| - 1] == done;
  }

  lemma {:induction false} QueueIsEmpty(seen: seq<Exchange>, done: seq<Exchange>, queue: seq<Message>)
    requires SeenInStep(seen, done, queue) && PhaseAfter(done).Awaiting?
    ensures queue == [] && seen == done
  {
    if queue != [] {
      SplitSeen(seen, done, queue, 1);
      NothingIsSentBefore(done, queue);
      assert false;
    }
  }

  lemma {:induction false} AnswerIsSeen(done: seq<Exchange>)
    requires PhaseAfter(done).Awaiting?
    ensures SeenInStep(done + [In], done + [In], [])
    ensures Replay(READY, done + [In]) == OnTimer(Replay(READY, done), 0)
  {
    PhaseOneMore(done, In);
    assert (done + [In])[..|done|] == done;
    assert (done + [In]) + Outs([]) == done + [In];
  }

  lemma {:induction false} TimerOver(p: Peer, b: seq<byte>)
    requires p.Live? && !p.startup && |p.pending| == 1 && !p.poisoned && !p.ended && !p.destroyed
    ensures OnTimer(Over(p, b), 0) == Over(OnTimer(p, 0), b)
  {
    var answer := [Response(p.pending[0])];
    assert [Greeting] + (p.written + answer) == ([Greeting] + p.written) + answer;
  }

  lemma {:induction false} EverythingInStep(packet: seq<byte>, all: seq<Happening>)
    returns (done: seq<Exchange>, queue: seq<Message>)
    requires IsStartup(packet) && Patient(Opened(packet), all)
    ensures InStep(HappenAll(Opened(packet), all), packet, done, queue)
    decreases |all|
  {
    if all == [] {
      done, queue := [], [];
      assert packet + Encode([]) == packet && FRESH.buffer + packet == packet;
      assert [] + Outs([]) == [];
    } else {
      var before, what := HappenAll(Opened(packet), all[..|all| - 1]), all[|all| - 1];
      done, queue := EverythingInStep(packet, all[..|all| - 1]);
      match what
      case Sends(m) =>
        if Sendable(m) {
          SendsInStep(before, packet, done, queue, m);
          queue := queue + [m];
        }
      case Arrives(n) =>
        if n <= |before.wire| {
          if before.peer.startup {
            done, queue := OpensInStep(before, packet, queue, n);
          } else {
            done, queue := ArrivesInStep(before, packet, done, queue, n);
          }
        }
      case Fires(i) =>
        if i < |before.peer.pending| {
          FiresInStep(before, packet, done, queue, i);
          done, queue := done + [In], [];
        }
    }
  }

  // -- What the client gets ---------------------------------------------------------------------------

  function Answered(xs: seq<Exchange>): nat {
    if xs == [] then 0 else Answered(xs[..|xs| - 1]) + (if xs[|xs| - 1].In? then 1 else 0)
  }

  lemma {:induction false} AnsweredIsSent(xs: seq<Exchange>)
    requires PhaseAfter(xs) != Broken
    ensures Answered(xs) + (if PhaseAfter(xs).Awaiting? then 1 else 0) == |HistoryOf(xs).sent|
    decreases |xs|
  {
    if xs != [] {
      AnsweredIsSent(xs[..|xs| - 1]);
    }
  }

  lemma {:induction false} AnswersPrefix(a: seq<Query>, b: seq<Query>, n: nat)
    requires n <= |a|
    ensures Answers(a + b)[..n] == Answers(a)[..n]
    decreases |b|
  {
    if b == [] {
      assert a + b == a;
    } else {
      assert (a + b)[..|a + b| - 1] == a + b[..|b| - 1];
      AnswersPrefix(a, b[..|b| - 1], n);
    }
  }

  lemma {:induction false} SendingKeepsAnswers(done: seq<Exchange>, outs: seq<Exchange>)
    requires forall i :: 0 <= i < |outs| ==> outs[i].Out?
    ensures Answered(done + outs) == Answered(done)
    ensures HistoryOf(done).sent <= HistoryOf(done + outs).sent
    decreases |outs|
  {
    if outs == [] {
      assert done + outs == done;
    } else {
      assert (done + outs)[..|done + outs| - 1] == done + outs[..|outs| - 1];
      SendingKeepsAnswers(done, outs[..|outs| - 1]);
    }
  }

  /** As many answers as the client has seen, those of its first queries in their order. */
  ghost predicate InOrder(link: Link) {
    var sent := HistoryOf(link.seen).sent;
    && Answered(link.seen) <= |sent|
    && link.peer.Live? && !link.peer.poisoned && link.peer.maxOutstanding <= 1
    && PhaseAfter(link.seen) != Broken
    && link.peer.written == if link.peer.startup then [] else [Greeting] + Answers(sent)[..Answered(link.seen)]
  }

  lemma {:induction false} AnswersSoFar(seen: seq<Exchange>, done: seq<Exchange>, queue: seq<Message>)
    requires SeenInStep(seen, done, queue)
    ensures Answered(seen) == Answered(done) <= |HistoryOf(done).sent| <= |HistoryOf(seen).sent|
    ensures Answers(HistoryOf(seen).sent)[..Answered(seen)] == Answers(HistoryOf(done).sent)[..Answered(done)]
  {
    FrontIsPatient(done, Outs(queue));
    AnsweredIsSent(done);
    SendingKeepsAnswers(done, Outs(queue));
    var before, sent := HistoryOf(done).sent, HistoryOf(seen).sent;
    assert sent == before + sent[|before|..];
    AnswersPrefix(before, sent[|before|..], Answered(done));
  }

  lemma {:induction false} WrittenSoFar(done: seq<Exchange>)
    requires PhaseAfter(done) != Broken
    ensures var p, sent := Replay(READY, done), HistoryOf(done).sent;
            && p.Live? && !p.poisoned && p.maxOutstanding <= 1 && Answered(done) <= |sent|
            && p.written == Answers(sent)[..Answered(done)]
            && (PhaseAfter(done).Awaiting? ==> |sent| > 0 && p.pending == [Answers(sent)[|sent| - 1].answer])
  {
    WaitingClientIsServed(done);
    AnsweredIsSent(done);
  }

  /** A client that waits for ReadyForQuery, over any network: however its bytes are cut and whenever
      the timers fire, the connection is never poisoned, at most one query is outstanding, no answer
      comes unasked, and the client has the greeting and its answers, each once and in order. When all
      it sent has arrived, the answer it waits for is on its way. */
  lemma {:induction false} WaitingClientIsServedOverWire(packet: seq<byte>, all: seq<Happening>)
    requires IsStartup(packet) && Patient(Opened(packet), all)
    ensures InOrder(HappenAll(Opened(packet), all))
    ensures var link := HappenAll(Opened(packet), all);
            var sent := HistoryOf(link.seen).sent;
            link.wire == [] && PhaseAfter(link.seen).Awaiting? ==>
              |sent| > 0 && link.peer.Live? && link.peer.pending == [Answers(sent)[|sent| - 1].answer]
  {
    var link := HappenAll(Opened(packet), all);
    var done, queue := EverythingInStep(packet, all);
    FrontIsPatient(done, Outs(queue));
    WrittenSoFar(done);
    AnswersSoFar(link.seen, done, queue);
    if link.wire == [] {
      NothingIsQueued(link, packet, done, queue);
      assert done + Outs(queue) == done;
    }
  }

  lemma {:induction false} NothingIsQueued(link: Link, packet: seq<byte>, done: seq<Exchange>, queue: seq<Message>)
    requires InStep(link, packet, done, queue) && IsStartup(packet) && link.wire == []
    ensures !link.peer.startup && queue == []
  {
    assert link.peer.buffer + link.wire == link.peer.buffer;
    if link.peer.startup {
      HeaderIsStable(true, packet, Encode(queue));
    } else if queue != [] {
      PacketIsOneFrame(queue[0].kind, queue[0].body, Encode(queue[1..]));
    }
  }
}
